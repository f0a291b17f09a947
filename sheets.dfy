/**
 * The page of the spreadsheet application as one object: the mapping it saves, the grid's cells
 * (their text and their formula attribute), the selected cell, the open file's name and whether
 * there are unsaved changes. Each event handler is a method proved against the function of the
 * `Workbook` module that says what the handler does to the page.
 */
module Sheets {
  import opened Wrappers
  import opened Text
  import opened JsNumber
  import opened Formula
  import opened Maps
  import opened Workbook

  /** What opening a file gives `loadSpreadsheet`: the CSV reading, the parsed JSON, or nothing when parsing throws. */
  function Opened(path: string, content: string, parsed: Option<map<string, Json>>): Option<Sheet> {
    if Extension(path) == "csv" then Some(CsvData(content))
    else if parsed.Some? then Some(LoadJson(parsed.value))
    else None
  }

  /** A redraw that has stopped stays stopped: the cells after the failing one are not visited. */
  lemma {:induction false} LoadAllStops(g: Grid, cells: seq<Cell>, i: nat, j: nat)
    requires AllOnGrid(cells) && i <= j <= |cells|
    requires !LoadAll(g, cells[..i]).1
    ensures AllOnGrid(cells[..j]) && AllOnGrid(cells[..i])
    ensures LoadAll(g, cells[..j]) == LoadAll(g, cells[..i])
    decreases j
  {
    assert AllOnGrid(cells[..j]) && AllOnGrid(cells[..i]);
    if j > i {
      LoadAllStops(g, cells, i, j - 1);
      assert cells[..j][..j - 1] == cells[..j - 1];
    }
  }

  /** While the redraw runs, one more cell is one more `LoadCell`. */
  lemma LoadAllStep(g: Grid, cells: seq<Cell>, i: nat)
    requires AllOnGrid(cells) && i < |cells|
    requires LoadAll(g, cells[..i]).1
    ensures AllOnGrid(cells[..i]) && AllOnGrid(cells[..i + 1])
    ensures LoadAll(g, cells[..i + 1]) == LoadCell(LoadAll(g, cells[..i]).0, cells[i])
  {
    assert cells[..i + 1][..i] == cells[..i];
    assert AllOnGrid(cells[..i]) && AllOnGrid(cells[..i + 1]);
  }

  /** One more cell of the recalculation pass is one more `RecalcCell`. */
  lemma RecalcStep(g: Grid, cells: seq<Cell>, i: nat, changed: string)
    requires AllOnGrid(cells) && i < |cells|
    ensures AllOnGrid(cells[..i]) && AllOnGrid(cells[..i + 1])
    ensures Recalc(g, cells[..i + 1], changed) == RecalcCell(Recalc(g, cells[..i], changed), cells[i], changed)
  {
    assert cells[..i + 1][..i] == cells[..i];
    assert AllOnGrid(cells[..i]) && AllOnGrid(cells[..i + 1]);
  }

  /** The CSV branch of `loadFile` (sheets.js lines 514-523): the mapping a CSV text is read into. */
  method ParseCsv(content: string) returns (m: Sheet)
    ensures m == CsvData(content)
  {
    var lines := CsvLines(content);
    m := ReadLines(lines);
  }

  /** The CSV branch's loop over the non-blank lines, the i-th of them being row i + 1. */
  method ReadLines(lines: seq<string>) returns (m: Sheet)
    ensures m == CsvRows(LineFields(lines), |lines|)
  {
    m := map[];
    var r := 0;
    while r < |lines|
      invariant 0 <= r <= |lines|
      invariant m == CsvRows(LineFields(lines), r)
    {
      m := ReadLineAt(m, lines, r);
      r := r + 1;
    }
  }

  /** Line `r` read, as row `r + 1`, into the mapping the lines before it were read into. */
  method ReadLineAt(m0: Sheet, lines: seq<string>, r: nat) returns (m: Sheet)
    requires r < |lines| && m0 == CsvRows(LineFields(lines), r)
    ensures m == CsvRows(LineFields(lines), r + 1)
  {
    LineFieldsAt(lines, r);
    m := ReadLine(m0, Fields(lines[r]), r + 1);
  }

  /** One line of the CSV branch: each field, trimmed, under its column's letter and the line's row. */
  method ReadLine(m0: Sheet, cols: seq<string>, row: nat) returns (m: Sheet)
    ensures m == CsvRow(m0, cols, row)
  {
    ghost var keys, vals := RowKeys(row, |cols|), RowValues(cols, |cols|);
    m := m0;
    var c := 0;
    while c < |cols|
      invariant 0 <= c <= |cols|
      invariant m == WriteAll(m0, keys, vals, c)
    {
      WriteAllStep(m0, keys, vals, c);
      RowKeysAt(row, |cols|, c);
      RowValuesAt(cols, |cols|, c);
      m := m[CsvKey(c, row) := Str(Trim(cols[c]))];
      c := c + 1;
    }
  }

  class Spreadsheet {
    var data: Sheet
    var formula: map<Cell, string>
    var text: map<Cell, string>
    var selected: Option<Cell>
    var fileName: Option<string>
    var dirty: bool

    /** The part of the page the handlers' specifications talk about. */
    function View(): Grid
      reads this`data, this`formula, this`text
    {
      Grid(data, formula, text)
    }

    /** The selection is always a cell of the grid. */
    predicate Valid()
      reads this
    {
      selected.Some? ==> OnGrid(selected.value)
    }

    /** The window title as `updateWindowTitle` last set it. */
    function Title(): string
      reads this
    {
      WindowTitle(fileName, dirty)
    }

    /** The formula bar as `updateFormulaBar` last set it. */
    function FormulaBar(): string
      reads this
    {
      FormulaBarText(View(), selected)
    }

    /** A fresh page: empty mapping, empty cells, nothing selected, no file. */
    constructor ()
      ensures Valid()
      ensures data == map[] && formula == map[] && text == map[]
      ensures selected == None && fileName == None && !dirty
    {
      data := map[];
      formula := map[];
      text := map[];
      selected := None;
      fileName := None;
      dirty := false;
    }

    /** `selectCell`: the focused cell becomes the selection. */
    method Select(cell: Cell)
      requires OnGrid(cell)
      modifies this
      ensures Valid() && selected == Some(cell)
      ensures View() == old(View()) && fileName == old(fileName) && dirty == old(dirty)
    {
      selected := Some(cell);
    }

    /** `navigateCell(row, col)`: the nearest cell of the grid is selected. */
    method Navigate(row: int, col: int)
      modifies this
      ensures Valid() && selected == Some(NavigateTarget(row, col))
      ensures View() == old(View()) && fileName == old(fileName) && dirty == old(dirty)
    {
      var r, c := row, col;
      if r < 1 { r := 1; }
      if r > Rows { r := Rows; }
      if c < 0 { c := 0; }
      if c >= Cols { c := Cols - 1; }
      selected := Some(Cell(c, r));
    }

    /** `handleCellKeydown`: a key pressed in `cell` moves the selection or does nothing. */
    method KeyDown(cell: Cell, key: Key, shift: bool, selection: string)
      requires OnGrid(cell)
      modifies this
      ensures var move := KeyMove(key, shift, Shown(old(View()), cell), selection, cell);
        selected == (if move.Some? then Some(NavigateTarget(move.value.0, move.value.1)) else old(selected))
      ensures View() == old(View()) && fileName == old(fileName) && dirty == old(dirty)
    {
      var move := KeyMove(key, shift, Shown(View(), cell), selection, cell);
      if move.Some? {
        Navigate(move.value.0, move.value.1);
      }
    }

    /** The `input` event of `cell` after its text became `value` (sheets.js lines 109-135). */
    method Input(cell: Cell, value: string)
      requires OnGrid(cell)
      modifies this
      ensures View() == AfterInput(old(View()), cell, value)
      ensures dirty && selected == old(selected) && fileName == old(fileName)
    {
      var pending := data - {FormulaKey(cell)};
      formula := formula - {cell};
      var accepted := false;
      if StartsWith(value, "=") {
        var result := Calculate(value, pending);
        if result != Str("#ERROR") {
          accepted := true;
          formula := formula[cell := value];
          text := text[cell := ToText(result)];
          data := pending[Address(cell) := result][FormulaKey(cell) := Str(value)];
        }
      }
      if !accepted {
        data := pending[Address(cell) := Str(value)];
        text := text[cell := value];
      }
      dirty := true;
    }

    /** Enter in the formula bar with `value` (sheets.js lines 262-292); nothing happens without a selection. */
    method FormulaBarEnter(value: string)
      requires Valid()
      modifies this
      ensures Valid()
      ensures selected.Some? ==> View() == AfterFormulaBar(old(View()), selected.value, value) && dirty
      ensures selected.None? ==> View() == old(View()) && dirty == old(dirty)
      ensures selected == old(selected) && fileName == old(fileName)
    {
      if selected.Some? {
        var cell := selected.value;
        if StartsWith(value, "=") {
          var result := Calculate(value, data);
          formula := formula[cell := value];
          text := text[cell := ToText(result)];
          data := data[Address(cell) := result][FormulaKey(cell) := Str(value)];
        } else {
          text := text[cell := value];
          data := data[Address(cell) := Str(value)] - {FormulaKey(cell)};
        }
        dirty := true;
      }
    }

    /** The Σ button (sheets.js lines 244-260): the selected cell gets the sum of the cells above it. */
    method SumButton()
      requires Valid()
      modifies this
      ensures Valid()
      ensures selected.Some? ==> View() == AfterSum(old(View()), selected.value) && dirty
      ensures selected.None? ==> View() == old(View()) && dirty == old(dirty)
      ensures selected == old(selected) && fileName == old(fileName)
    {
      if selected.Some? {
        var cell := selected.value;
        var sum := Finite(0.0);
        var r := 1;
        while r < cell.row
          invariant 1 <= r <= cell.row
          invariant ColumnAbove(data, cell.col, r, cell.row, sum) == ColumnAbove(data, cell.col, 1, cell.row, Finite(0.0))
          decreases cell.row - r
        {
          var reading := CellReading(data, Address(Cell(cell.col, r)));
          if reading.Some? {
            sum := Add(sum, reading.value);
          }
          r := r + 1;
        }
        data := data[Address(cell) := Number(sum)];
        text := text[cell := Show(sum)];
        dirty := true;
      }
    }

    /** `recalculateDependentCells(changed)`: one pass over the grid in document order. */
    method Recalculate(changed: string)
      modifies this
      ensures View() == Recalc(old(View()), GridOrder(), changed)
      ensures selected == old(selected) && fileName == old(fileName) && dirty == old(dirty)
    {
      var cells := GridOrder();
      var i := 0;
      while i < |cells|
        invariant 0 <= i <= |cells| && AllOnGrid(cells[..i])
        invariant View() == Recalc(old(View()), cells[..i], changed)
        invariant selected == old(selected) && fileName == old(fileName) && dirty == old(dirty)
      {
        RecalcStep(old(View()), cells, i, changed);
        assert cells[..i + 1][i] == cells[i];
        RecalculateCell(cells[i], changed);
        i := i + 1;
      }
      assert cells[..i] == cells;
    }

    /** The body of the recalculation pass for one cell `c`. */
    method RecalculateCell(c: Cell, changed: string)
      requires c.col < Cols
      modifies this
      ensures View() == RecalcCell(old(View()), c, changed)
      ensures selected == old(selected) && fileName == old(fileName) && dirty == old(dirty)
    {
      if c in formula && formula[c] != "" && Contains(formula[c], changed) {
        var result := Calculate(formula[c], data);
        if result != Str("#ERROR") {
          data, text := data[Address(c) := result], text[c := ToText(result)];
        }
      }
    }

    /** The `blur` event of `cell`: formulas that mention its address are evaluated again. */
    method Blur(cell: Cell)
      requires OnGrid(cell)
      modifies this
      ensures View() == Recalc(old(View()), GridOrder(), Address(cell))
      ensures selected == old(selected) && fileName == old(fileName) && dirty == old(dirty)
    {
      Recalculate(Address(cell));
    }

    /** `clearSpreadsheet`: the mapping and every cell's text are emptied; formula attributes stay. */
    method Clear()
      modifies this
      ensures data == map[] && text == map[] && fileName == None && !dirty
      ensures formula == old(formula) && selected == old(selected)
    {
      data := map[];
      text := map[];
      fileName := None;
      dirty := false;
    }

    /**
     * `loadSpreadsheet(m)`: the mapping is adopted, then the cells are redrawn in document order;
     * false when a cell's formula entry throws, which stops the redraw there.
     */
    method Load(m: Sheet) returns (ok: bool)
      modifies this
      ensures (View(), ok) == LoadAll(Grid(m, old(formula), old(text)), GridOrder())
      ensures selected == old(selected) && fileName == old(fileName) && dirty == old(dirty)
    {
      data := m;
      ghost var g0 := View();
      var cells := GridOrder();
      var i := 0;
      ok := true;
      while i < |cells| && ok
        invariant 0 <= i <= |cells| && AllOnGrid(cells[..i])
        invariant (View(), ok) == LoadAll(g0, cells[..i])
        invariant selected == old(selected) && fileName == old(fileName) && dirty == old(dirty)
      {
        LoadAllStep(g0, cells, i);
        assert cells[..i + 1][i] == cells[i];
        ok := LoadCellAt(cells[i]);
        i := i + 1;
      }
      if ok {
        assert cells[..i] == cells;
      } else {
        LoadAllStops(g0, cells, i, |cells|);
        assert cells[..|cells|] == cells;
      }
    }

    /** The body of the redraw for one cell `c`: its formula attribute and its shown text. */
    method LoadCellAt(c: Cell) returns (ok: bool)
      requires c.col < Cols
      modifies this
      ensures (View(), ok) == LoadCell(old(View()), c)
      ensures selected == old(selected) && fileName == old(fileName) && dirty == old(dirty)
    {
      ghost var before := View();
      ok := true;
      var fk := FormulaKey(c);
      var f, t := formula, text;
      if fk in data && !Falsy(data[fk]) {
        f := f[c := ToText(data[fk])];
        if data[fk].Str? {
          var result := Calculate(data[fk].s, data);
          t := t[c := ToText(result)];
        } else {
          ok := false;
        }
      } else {
        f := f - {c};
        var a := Address(c);
        t := t[c := if a in data && !Falsy(data[a]) then ToText(data[a]) else ""];
      }
      formula, text := f, t;
      assert (View(), ok) == LoadCell(before, c);
    }

    /**
     * `loadFile(path)` with the file's `content` and, for a file that is not CSV, what `JSON.parse`
     * made of it (None when it throws). Only a redraw that completes sets the name and clears the
     * unsaved-changes flag.
     */
    method LoadFile(path: string, content: string, parsed: Option<map<string, Json>>) returns (ok: bool)
      modifies this
      ensures Opened(path, content, parsed).None? ==> !ok && View() == old(View())
      ensures Opened(path, content, parsed).Some? ==>
        (View(), ok) == LoadAll(Grid(Opened(path, content, parsed).value, old(formula), old(text)), GridOrder())
      ensures ok ==> fileName == Some(FileName(path)) && !dirty
      ensures !ok ==> fileName == old(fileName) && dirty == old(dirty)
      ensures selected == old(selected)
    {
      var ext := Extension(path);
      var m: Sheet;
      if ext == "csv" {
        m := ParseCsv(content);
      } else if parsed.Some? {
        m := LoadJson(parsed.value);
      } else {
        assert Opened(path, content, parsed) == None;
        return false;
      }
      assert Opened(path, content, parsed) == Some(m);
      ghost var g0 := Grid(m, formula, text);
      ok := Load(m);
      assert (View(), ok) == LoadAll(g0, GridOrder());
      if ok {
        fileName := Some(FileName(path));
        dirty := false;
      }
    }

    /**
     * `saveSpreadsheet`. With the desktop bridge a dialog chooses the path (None or empty when it
     * is cancelled) and the write may fail; without it the browser downloads the file. Returns the
     * object written, if any.
     */
    method Save(bridge: bool, chosen: Option<string>, writeFails: bool) returns (written: Option<map<string, Json>>)
      modifies this
      ensures !bridge ==> written == Some(SaveJson(old(data))) && !dirty && fileName == old(fileName)
      ensures bridge && chosen.Some? && chosen.value != "" && !writeFails ==>
        written == Some(SaveJson(old(data))) && !dirty && fileName == Some(FileName(chosen.value))
      ensures bridge && !(chosen.Some? && chosen.value != "" && !writeFails) ==>
        written == None && dirty == old(dirty) && fileName == old(fileName)
      ensures View() == old(View()) && selected == old(selected)
    {
      if !bridge {
        written := Some(SaveJson(data));
        dirty := false;
      } else if chosen.Some? && chosen.value != "" && !writeFails {
        written := Some(SaveJson(data));
        fileName := Some(FileName(chosen.value));
        dirty := false;
      } else {
        written := None;
      }
    }
  }
}
