/**
 * The spreadsheet window of Omega Sheets: a 26 x 100 grid whose contents live in one mapping from
 * addresses to values, beside which every grid cell carries a `data-formula` attribute and a
 * displayed text. The edit handlers, the recalculation pass, the Σ button, clearing, loading
 * (from JSON or a naive CSV reading), saving and cursor movement are modelled here.
 */
module Workbook {
  import opened Wrappers
  import opened Text
  import opened JsNumber
  import opened Formula
  import opened Maps

  const Rows: nat := 100
  const Cols: nat := 26

  /** A grid position: column 0..25 (A..Z) and row 1..100. */
  datatype Cell = Cell(col: nat, row: nat)

  predicate OnGrid(c: Cell) {
    c.col < Cols && 1 <= c.row <= Rows
  }

  predicate AllOnGrid(cells: seq<Cell>) {
    forall k :: 0 <= k < |cells| ==> OnGrid(cells[k])
  }

  /** `COL_NAMES[col] + row` */
  function Address(c: Cell): (a: string)
    requires c.col < Cols
    ensures |a| >= 2 && a[0] == ColumnLetter(c.col) && a[1..] == NatToString(c.row)
  {
    [ColumnLetter(c.col)] + NatToString(c.row)
  }

  /** The key under which the mapping keeps a cell's formula text. */
  function FormulaKey(c: Cell): (k: string)
    requires c.col < Cols
    ensures k == Address(c) + "_formula"
  {
    Address(c) + "_formula"
  }

  /** Different cells have different addresses. */
  lemma AddressInjective(a: Cell, b: Cell)
    requires a.col < Cols && b.col < Cols && Address(a) == Address(b)
    ensures a == b
  {
    assert ColumnLetter(a.col) == ColumnLetter(b.col);
    NatToStringInjective(a.row, b.row);
  }

  /** A formula key is never a cell address. */
  lemma FormulaKeyNotAddress(a: Cell, b: Cell)
    requires a.col < Cols && b.col < Cols
    ensures FormulaKey(a) != Address(b)
  {
    var k, ad := FormulaKey(a), Address(b);
    assert k[|Address(a)|] == '_';
    forall i | 0 <= i < |ad| ensures ad[i] != '_' {
      if i > 0 { assert ad[i] == ad[1..][i - 1]; }
    }
  }

  /** The cells in document order: row by row from 1 to 100, each from A to Z. */
  function GridOrder(): (cells: seq<Cell>)
    ensures |cells| == Rows * Cols && AllOnGrid(cells)
  {
    seq(Rows * Cols, i requires 0 <= i < Rows * Cols => Cell(i % Cols, i / Cols + 1))
  }

  /** Every cell of the grid appears in document order. */
  lemma GridOrderComplete(c: Cell)
    requires OnGrid(c)
    ensures (c.row - 1) * Cols + c.col < |GridOrder()| && GridOrder()[(c.row - 1) * Cols + c.col] == c
  {
    var i := (c.row - 1) * Cols + c.col;
    assert i % Cols == c.col && i / Cols == c.row - 1;
  }

  /** No cell appears twice in document order, so the recalculation pass visits each cell once. */
  lemma GridOrderDistinct()
    ensures Distinct(GridOrder())
  {
    var cells := GridOrder();
    forall a, b | 0 <= a < b < |cells| ensures cells[a] != cells[b] {
      assert a == (a / Cols) * Cols + a % Cols;
      assert b == (b / Cols) * Cols + b % Cols;
    }
  }

  /**
   * What the page holds: the mapping that is saved, and per grid cell its `data-formula` attribute
   * (absent when the cell has none) and its displayed text (absent meaning empty).
   */
  datatype Grid = Grid(data: Sheet, formula: map<Cell, string>, text: map<Cell, string>)

  /** `cell.textContent` */
  function Shown(g: Grid, c: Cell): string {
    if c in g.text then g.text[c] else ""
  }

  // The cell `input` handler.

  /** The mapping an edit of `cell` is evaluated against: the old formula key is already gone. */
  function Pending(g: Grid, cell: Cell): Sheet
    requires cell.col < Cols
  {
    g.data - {FormulaKey(cell)}
  }

  /** An edit the input handler keeps as a formula: it starts with `=` and does not evaluate to `'#ERROR'`. */
  predicate Accepted(g: Grid, cell: Cell, value: string)
    requires cell.col < Cols
  {
    StartsWith(value, "=") && CalculateFormula(value, Pending(g, cell)) != Str("#ERROR")
  }

  /** The input handler for `cell` after its text became `value` (sheets.js lines 109-135). */
  function AfterInput(g: Grid, cell: Cell, value: string): Grid
    requires OnGrid(cell)
  {
    var data := Pending(g, cell);
    var formula := g.formula - {cell};
    if Accepted(g, cell, value) then
      var result := CalculateFormula(value, data);
      Grid(data[Address(cell) := result][FormulaKey(cell) := Str(value)], formula[cell := value], g.text[cell := ToText(result)])
    else
      Grid(data[Address(cell) := Str(value)], formula, g.text[cell := value])
  }

  /**
   * The input handler's rule: the old formula is dropped from both stores; a formula that is
   * accepted stores its result at the address and its text under the formula key and as the
   * attribute; anything else stores the typed text at the address and leaves no formula behind.
   */
  lemma InputRule(g: Grid, cell: Cell, value: string)
    requires OnGrid(cell)
    ensures var r := AfterInput(g, cell, value);
      (FormulaKey(cell) in r.data <==> Accepted(g, cell, value))
      && (cell in r.formula <==> Accepted(g, cell, value))
      && Address(cell) in r.data
      && (Accepted(g, cell, value) ==>
            r.formula[cell] == value && r.data[FormulaKey(cell)] == Str(value)
            && r.data[Address(cell)] == CalculateFormula(value, Pending(g, cell))
            && Shown(r, cell) == ToText(CalculateFormula(value, Pending(g, cell))))
      && (!Accepted(g, cell, value) ==> r.data[Address(cell)] == Str(value) && Shown(r, cell) == value)
  {
    FormulaKeyNotAddress(cell, cell);
  }

  /** The input handler touches only the edited cell and its two keys. */
  lemma InputFrame(g: Grid, cell: Cell, value: string)
    requires OnGrid(cell)
    ensures var r := AfterInput(g, cell, value);
      (forall k :: k != Address(cell) && k != FormulaKey(cell) ==>
         (k in r.data <==> k in g.data) && (k in r.data ==> r.data[k] == g.data[k]))
      && (forall c :: c != cell ==> (c in r.formula <==> c in g.formula) && (c in r.formula ==> r.formula[c] == g.formula[c]))
      && (forall c :: c != cell ==> Shown(r, c) == Shown(g, c))
  {
  }


  // The formula bar's Enter handler.

  /** Enter in the formula bar with `value` for the selected `cell` (sheets.js lines 262-292). */
  function AfterFormulaBar(g: Grid, cell: Cell, value: string): Grid
    requires OnGrid(cell)
  {
    if StartsWith(value, "=") then
      var result := CalculateFormula(value, g.data);
      Grid(g.data[Address(cell) := result][FormulaKey(cell) := Str(value)], g.formula[cell := value], g.text[cell := ToText(result)])
    else
      Grid(g.data[Address(cell) := Str(value)] - {FormulaKey(cell)}, g.formula, g.text[cell := value])
  }

  /**
   * The formula bar's rule: a formula is stored whatever it evaluates to, `'#ERROR'` included, and
   * becomes the attribute; a literal is stored as text and removes the formula key but leaves the
   * attribute as it was.
   */
  lemma FormulaBarRule(g: Grid, cell: Cell, value: string)
    requires OnGrid(cell)
    ensures var r := AfterFormulaBar(g, cell, value);
      Address(cell) in r.data
      && (StartsWith(value, "=") ==>
            r.formula == g.formula[cell := value]
            && FormulaKey(cell) in r.data && r.data[FormulaKey(cell)] == Str(value)
            && r.data[Address(cell)] == CalculateFormula(value, g.data)
            && Shown(r, cell) == ToText(CalculateFormula(value, g.data)))
      && (!StartsWith(value, "=") ==>
            r.formula == g.formula && FormulaKey(cell) !in r.data
            && r.data[Address(cell)] == Str(value) && Shown(r, cell) == value)
  {
    FormulaKeyNotAddress(cell, cell);
  }

  /** The formula bar touches only the selected cell and its two keys. */
  lemma FormulaBarFrame(g: Grid, cell: Cell, value: string)
    requires OnGrid(cell)
    ensures var r := AfterFormulaBar(g, cell, value);
      (forall k :: k != Address(cell) && k != FormulaKey(cell) ==>
         (k in r.data <==> k in g.data) && (k in r.data ==> r.data[k] == g.data[k]))
      && (forall c :: c != cell ==> (c in r.formula <==> c in g.formula) && (c in r.formula ==> r.formula[c] == g.formula[c]))
      && (forall c :: c != cell ==> Shown(r, c) == Shown(g, c))
  {
  }


  /** A formula that fails to parse stays in the cell through the formula bar, showing `#ERROR`. */
  lemma FormulaBarKeepsError(g: Grid, cell: Cell, value: string)
    requires OnGrid(cell) && StartsWith(value, "=")
    requires CalculateFormula(value, g.data) == Str("#ERROR")
    ensures var r := AfterFormulaBar(g, cell, value);
      r.formula[cell] == value && r.data[FormulaKey(cell)] == Str(value)
      && r.data[Address(cell)] == Str("#ERROR") && Shown(r, cell) == "#ERROR"
  {
    FormulaBarRule(g, cell, value);
  }

  /** The input handler instead keeps the typed text of such a formula, and no formula at all. */
  lemma InputDropsError(g: Grid, cell: Cell, value: string)
    requires OnGrid(cell) && StartsWith(value, "=")
    requires CalculateFormula(value, Pending(g, cell)) == Str("#ERROR")
    ensures var r := AfterInput(g, cell, value);
      cell !in r.formula && FormulaKey(cell) !in r.data
      && r.data[Address(cell)] == Str(value) && Shown(r, cell) == value
  {
    InputRule(g, cell, value);
  }

  /** A literal typed into the formula bar over a formula cell: the attribute stays, the saved formula goes. */
  lemma FormulaBarLiteralDiverges(g: Grid, cell: Cell, value: string)
    requires OnGrid(cell) && cell in g.formula && !StartsWith(value, "=")
    ensures var r := AfterFormulaBar(g, cell, value);
      cell in r.formula && r.formula[cell] == g.formula[cell] && FormulaKey(cell) !in r.data
  {
    FormulaBarRule(g, cell, value);
  }

  /** A formula calling an unknown function is accepted by the input handler and shows its own text. */
  lemma InputKeepsUnknownFunction(g: Grid, cell: Cell, value: string)
    requires OnGrid(cell)
    requires |value| >= 2 && value[0] == '=' && IsUpper(value[1]) && value[1] != 'S'
    requires RefFree(value[1..]) && forall i :: 0 <= i < |value| ==> !IsSpace(value[i])
    ensures var r := AfterInput(g, cell, value);
      cell in r.formula && r.formula[cell] == value
      && FormulaKey(cell) in r.data && r.data[FormulaKey(cell)] == Str(value)
      && Address(cell) in r.data && r.data[Address(cell)] == Str(value) && Shown(r, cell) == value
  {
    UnknownFunctionKept(value, Pending(g, cell));
    InputRule(g, cell, value);
  }

  // The Σ button: the sum of the cells above the selected one.

  /** The sum of rows `r..row - 1` of column `col`, added to `acc` in order. */
  function ColumnAbove(m: Sheet, col: nat, r: nat, row: nat, acc: Num): Num
    requires col < Cols
    decreases row - r
  {
    if r >= row then acc else ColumnAbove(m, col, r + 1, row, AddCell(m, acc, Address(Cell(col, r))))
  }

  /** The Σ button sums exactly what the range form `SUM(X1:Xn)` over the same column would. */
  lemma {:induction false} ColumnAboveIsRange(m: Sheet, col: nat, r: nat, row: nat, acc: Num)
    requires col < Cols && 1 <= r && 1 <= row
    ensures ColumnAbove(m, col, r, row, acc) == RangeTotal(m, r, row - 1, col, col, acc)
    decreases row - r
  {
    if r < row {
      assert RowTotal(m, r, col, col, acc) == AddCell(m, acc, Address(Cell(col, r)));
      ColumnAboveIsRange(m, col, r + 1, row, AddCell(m, acc, Address(Cell(col, r))));
    }
  }

  /** The Σ button on the selected `cell` (sheets.js lines 244-260): the number replaces the value, formulas stay. */
  function AfterSum(g: Grid, cell: Cell): (r: Grid)
    requires OnGrid(cell)
    ensures r.formula == g.formula
    ensures FormulaKey(cell) in r.data <==> FormulaKey(cell) in g.data
    ensures Address(cell) in r.data && r.data[Address(cell)] == Number(ColumnAbove(g.data, cell.col, 1, cell.row, Finite(0.0)))
    ensures Shown(r, cell) == Show(ColumnAbove(g.data, cell.col, 1, cell.row, Finite(0.0)))
    ensures forall k :: k != Address(cell) ==> (k in r.data <==> k in g.data) && (k in r.data ==> r.data[k] == g.data[k])
    ensures forall c :: c != cell ==> Shown(r, c) == Shown(g, c)
  {
    FormulaKeyNotAddress(cell, cell);
    var sum := ColumnAbove(g.data, cell.col, 1, cell.row, Finite(0.0));
    Grid(g.data[Address(cell) := Number(sum)], g.formula, g.text[cell := Show(sum)])
  }

  // `recalculateDependentCells`: one pass over the formula cells in document order.

  /** A cell the pass re-evaluates: its attribute is non-empty and contains the changed address as a substring. */
  predicate Depends(g: Grid, c: Cell, changed: string) {
    c in g.formula && g.formula[c] != "" && Contains(g.formula[c], changed)
  }

  /** One cell of the pass, evaluated against the mapping as the cells before it left it. */
  function RecalcCell(g: Grid, c: Cell, changed: string): Grid
    requires c.col < Cols
  {
    if Depends(g, c, changed) then
      var result := CalculateFormula(g.formula[c], g.data);
      if result != Str("#ERROR") then Grid(g.data[Address(c) := result], g.formula, g.text[c := ToText(result)]) else g
    else g
  }

  /**
   * The pass over `cells`. Attributes never change; a cell or key changes only when it belongs to
   * a cell that depends on the changed address.
   */
  function Recalc(g: Grid, cells: seq<Cell>, changed: string): (r: Grid)
    requires AllOnGrid(cells)
    ensures r.formula == g.formula
    decreases |cells|
  {
    if cells == [] then g
    else
      var prefix := cells[..|cells| - 1];
      assert AllOnGrid(prefix);
      RecalcCell(Recalc(g, prefix, changed), cells[|cells| - 1], changed)
  }

  /** What the pass leaves alone: the text of every cell it does not re-evaluate, and every key that is not such a cell's address. */
  lemma {:induction false} RecalcFrame(g: Grid, cells: seq<Cell>, changed: string)
    requires AllOnGrid(cells)
    ensures var r := Recalc(g, cells, changed);
      (forall c :: (c !in cells || !Depends(g, c, changed)) ==> Shown(r, c) == Shown(g, c))
      && (forall k :: (forall c :: c in cells && Depends(g, c, changed) ==> Address(c) != k) ==>
            (k in r.data <==> k in g.data) && (k in r.data ==> r.data[k] == g.data[k]))
    decreases |cells|
  {
    if cells != [] {
      var prefix, last := cells[..|cells| - 1], cells[|cells| - 1];
      assert AllOnGrid(prefix);
      assert forall c :: c in prefix ==> c in cells;
      RecalcFrame(g, prefix, changed);
    }
  }

  /** No cell occurs twice: the document order visits each cell once. */
  predicate Distinct(cells: seq<Cell>) {
    forall a, b :: 0 <= a < b < |cells| ==> cells[a] != cells[b]
  }

  /**
   * What the pass makes of a cell that depends on the changed address, when no cell occurs twice:
   * its formula is evaluated against the mapping as the cells before it left it. A result other
   * than `'#ERROR'` becomes the cell's value and its text; `'#ERROR'` leaves both as they were.
   */
  lemma {:induction false} RecalcUpdate(g: Grid, cells: seq<Cell>, changed: string, i: nat)
    requires AllOnGrid(cells) && Distinct(cells) && i < |cells| && Depends(g, cells[i], changed)
    ensures var c := cells[i];
      var result := CalculateFormula(g.formula[c], Recalc(g, cells[..i], changed).data);
      var r := Recalc(g, cells, changed);
      (result != Str("#ERROR") ==> Address(c) in r.data && r.data[Address(c)] == result && Shown(r, c) == ToText(result))
      && (result == Str("#ERROR") ==>
            (Address(c) in r.data <==> Address(c) in g.data)
            && (Address(c) in r.data ==> r.data[Address(c)] == g.data[Address(c)])
            && Shown(r, c) == Shown(g, c))
    decreases |cells|
  {
    var prefix, last := cells[..|cells| - 1], cells[|cells| - 1];
    assert AllOnGrid(prefix);
    if i == |cells| - 1 {
      RecalcUpdateLast(g, cells, changed);
    } else {
      var c := cells[i];
      assert Distinct(prefix);
      assert prefix[..i] == cells[..i];
      assert prefix[i] == c;
      RecalcUpdate(g, prefix, changed, i);
      assert last != c;
      if Address(last) == Address(c) { AddressInjective(last, c); }
      RecalcCellElsewhere(Recalc(g, prefix, changed), last, c, changed);
    }
  }

  /** `RecalcUpdate` for the last cell of the pass: it occurs nowhere before. */
  lemma RecalcUpdateLast(g: Grid, cells: seq<Cell>, changed: string)
    requires AllOnGrid(cells) && Distinct(cells) && cells != [] && Depends(g, cells[|cells| - 1], changed)
    ensures var i := |cells| - 1; var c := cells[i];
      var result := CalculateFormula(g.formula[c], Recalc(g, cells[..i], changed).data);
      var r := Recalc(g, cells, changed);
      (result != Str("#ERROR") ==> Address(c) in r.data && r.data[Address(c)] == result && Shown(r, c) == ToText(result))
      && (result == Str("#ERROR") ==>
            (Address(c) in r.data <==> Address(c) in g.data)
            && (Address(c) in r.data ==> r.data[Address(c)] == g.data[Address(c)])
            && Shown(r, c) == Shown(g, c))
  {
    var i := |cells| - 1;
    var c := cells[i];
    var before := cells[..i];
    assert AllOnGrid(before);
    forall d | d in before && Depends(g, d, changed) ensures Address(d) != Address(c) {
      var k :| 0 <= k < i && before[k] == d;
      assert cells[k] == d;
      if Address(d) == Address(c) { AddressInjective(d, c); }
    }
    assert c !in before;
    RecalcFrame(g, before, changed);
  }

  /** One cell of the pass leaves every other cell's key and text alone. */
  lemma RecalcCellElsewhere(h: Grid, d: Cell, c: Cell, changed: string)
    requires d.col < Cols && c.col < Cols && d != c && Address(d) != Address(c)
    ensures var r := RecalcCell(h, d, changed);
      (Address(c) in r.data <==> Address(c) in h.data)
      && (Address(c) in r.data ==> r.data[Address(c)] == h.data[Address(c)])
      && Shown(r, c) == Shown(h, c)
  {
  }


  /** The pass never touches a formula key. */
  lemma RecalcKeepsFormulaKeys(g: Grid, cells: seq<Cell>, changed: string, x: Cell)
    requires AllOnGrid(cells) && x.col < Cols
    ensures var r := Recalc(g, cells, changed);
      (FormulaKey(x) in r.data <==> FormulaKey(x) in g.data)
      && (FormulaKey(x) in r.data ==> r.data[FormulaKey(x)] == g.data[FormulaKey(x)])
  {
    RecalcFrame(g, cells, changed);
    forall c | c in cells && Depends(g, c, changed) ensures Address(c) != FormulaKey(x) {
      var k :| 0 <= k < |cells| && cells[k] == c;
      FormulaKeyNotAddress(x, c);
    }
  }

  /** Appending a digit to a row number appends that digit to the address. */
  lemma AddressOfTenfold(b: Cell, d: nat)
    requires b.col < Cols && 1 <= b.row && d < 10
    ensures Address(Cell(b.col, b.row * 10 + d)) == Address(b) + [DigitChar(d)]
  {
    var n := b.row * 10 + d;
    assert n / 10 == b.row && n % 10 == d;
  }

  /**
   * The dependency test is a substring test, so a formula that mentions `A10` through `A19` is
   * re-evaluated when `A1` changes.
   */
  lemma FalseMatch(g: Grid, c: Cell, b: Cell, d: nat)
    requires b.col < Cols && 1 <= b.row && d < 10
    requires c in g.formula && Contains(g.formula[c], Address(Cell(b.col, b.row * 10 + d)))
    ensures Depends(g, c, Address(b))
  {
    var f, longer := g.formula[c], Address(Cell(b.col, b.row * 10 + d));
    AddressOfTenfold(b, d);
    ContainsIff(f, longer);
    var i :| OccursAt(f, longer, i);
    assert f[i..i + |Address(b)|] == longer[..|Address(b)|];
    assert OccursAt(f, Address(b), i);
    ContainsIff(f, Address(b));
  }

  // `loadSpreadsheet`: the mapping is adopted as it is, then every cell is redrawn from it.

  /**
   * The text a cell shows after loading: the value of its formula, or else its value, with the
   * values JavaScript treats as false shown as nothing.
   */
  function LoadedText(data: Sheet, c: Cell): string
    requires c.col < Cols
  {
    var fk := FormulaKey(c);
    if fk in data && !Falsy(data[fk]) && data[fk].Str? then ToText(CalculateFormula(data[fk].s, data))
    else if Address(c) in data && !Falsy(data[Address(c)]) then ToText(data[Address(c)])
    else ""
  }

  /** A truthy formula entry that is not text: `startsWith` is called on it and throws. */
  predicate Unloadable(data: Sheet, c: Cell)
    requires c.col < Cols
  {
    FormulaKey(c) in data && !Falsy(data[FormulaKey(c)]) && !data[FormulaKey(c)].Str?
  }

  /** One cell of the redraw; false when it throws. */
  function LoadCell(g: Grid, c: Cell): (Grid, bool)
    requires c.col < Cols
  {
    var fk := FormulaKey(c);
    if fk in g.data && !Falsy(g.data[fk]) then
      var attr := ToText(g.data[fk]);
      if g.data[fk].Str? then (Grid(g.data, g.formula[c := attr], g.text[c := LoadedText(g.data, c)]), true)
      else (Grid(g.data, g.formula[c := attr], g.text), false)
    else (Grid(g.data, g.formula - {c}, g.text[c := LoadedText(g.data, c)]), true)
  }

  /** What one cell of the redraw does: it throws exactly on an unloadable entry, and touches only that cell. */
  lemma LoadCellEffect(g: Grid, c: Cell)
    requires c.col < Cols
    ensures var (r, ok) := LoadCell(g, c);
      r.data == g.data && (ok <==> !Unloadable(g.data, c))
      && (ok ==> Shown(r, c) == LoadedText(g.data, c))
      && (c in r.formula <==> FormulaKey(c) in g.data && !Falsy(g.data[FormulaKey(c)]))
      && (c in r.formula ==> r.formula[c] == ToText(g.data[FormulaKey(c)]))
      && (forall x :: x != c ==>
            Shown(r, x) == Shown(g, x) && (x in r.formula <==> x in g.formula)
            && (x in r.formula ==> r.formula[x] == g.formula[x]))
  {
  }

  /** The redraw over `cells` in order, stopping at the first cell that throws; the mapping is never written. */
  function LoadAll(g: Grid, cells: seq<Cell>): (r: (Grid, bool))
    requires AllOnGrid(cells)
    ensures r.0.data == g.data
    decreases |cells|
  {
    if cells == [] then (g, true)
    else
      var prefix := cells[..|cells| - 1];
      assert AllOnGrid(prefix);
      var (h, ok) := LoadAll(g, prefix);
      if !ok then (h, false) else LoadCell(h, cells[|cells| - 1])
  }

  /** The redraw completes exactly when no cell has a formula entry that throws. */
  lemma {:induction false} LoadAllCompletes(g: Grid, cells: seq<Cell>)
    requires AllOnGrid(cells)
    ensures LoadAll(g, cells).1 <==> forall k :: 0 <= k < |cells| ==> !Unloadable(g.data, cells[k])
    decreases |cells|
  {
    if cells != [] {
      var prefix, last := cells[..|cells| - 1], cells[|cells| - 1];
      assert AllOnGrid(prefix);
      LoadAllCompletes(g, prefix);
      var (h, ok) := LoadAll(g, prefix);
      LoadCellEffect(h, last);
      assert LoadAll(g, cells).1 == (ok && LoadCell(h, last).1);
      EveryCellSplits(g.data, cells, prefix);
    }
  }

  /** Every cell loads when every cell but the last does and the last does. */
  lemma EveryCellSplits(data: Sheet, cells: seq<Cell>, prefix: seq<Cell>)
    requires AllOnGrid(cells) && cells != [] && prefix == cells[..|cells| - 1]
    ensures (forall k :: 0 <= k < |cells| ==> !Unloadable(data, cells[k])) <==>
      (forall k :: 0 <= k < |prefix| ==> !Unloadable(data, prefix[k])) && !Unloadable(data, cells[|cells| - 1])
  {
    assert forall k :: 0 <= k < |prefix| ==> prefix[k] == cells[k];
  }

  /** When the redraw completes, every cell shows its `LoadedText` and carries the attribute its formula key gives it. */
  lemma {:induction false} LoadAllShows(g: Grid, cells: seq<Cell>, k: nat)
    requires AllOnGrid(cells) && k < |cells| && LoadAll(g, cells).1
    ensures var r := LoadAll(g, cells).0; var c := cells[k];
      Shown(r, c) == LoadedText(g.data, c)
      && (c in r.formula <==> FormulaKey(c) in g.data && !Falsy(g.data[FormulaKey(c)]))
      && (c in r.formula ==> r.formula[c] == ToText(g.data[FormulaKey(c)]))
    decreases |cells|
  {
    var prefix := cells[..|cells| - 1];
    assert AllOnGrid(prefix);
    var last := cells[|cells| - 1];
    var (h, ok) := LoadAll(g, prefix);
    assert ok;
    LoadCellEffect(h, last);
    if cells[k] != last {
      assert k < |prefix| && prefix[k] == cells[k];
      LoadAllShows(g, prefix, k);
    }
  }

  /** Cells outside `cells` keep what they showed. */
  lemma {:induction false} LoadAllOutside(g: Grid, cells: seq<Cell>, c: Cell)
    requires AllOnGrid(cells) && c !in cells
    ensures Shown(LoadAll(g, cells).0, c) == Shown(g, c)
    decreases |cells|
  {
    if cells != [] {
      var prefix := cells[..|cells| - 1];
      assert AllOnGrid(prefix);
      assert c !in prefix;
      LoadAllOutside(g, prefix, c);
    }
  }

  /** A value stored as `0` shows as an empty cell after loading. */
  lemma ZeroShowsEmpty(data: Sheet, c: Cell)
    requires c.col < Cols && FormulaKey(c) !in data
    requires Address(c) in data && data[Address(c)] == Number(Finite(0.0))
    ensures LoadedText(data, c) == ""
  {
  }

  // The CSV branch of `loadFile`: lines split on `\n`, blank ones dropped, fields split on `,`.

  /** `lines.filter(line => line.trim())` */
  function NonBlank(lines: seq<string>): (r: seq<string>)
    ensures |r| <= |lines|
    decreases |lines|
  {
    if lines == [] then []
    else (if Trim(lines[0]) != "" then [lines[0]] else []) + NonBlank(lines[1..])
  }

  /** The filter keeps exactly the lines that are not blank once trimmed. */
  lemma {:induction false} NonBlankKeeps(lines: seq<string>)
    ensures forall x :: x in NonBlank(lines) <==> x in lines && Trim(x) != ""
    decreases |lines|
  {
    if lines != [] {
      NonBlankKeeps(lines[1..]);
      assert lines == [lines[0]] + lines[1..];
      assert NonBlank(lines) == (if Trim(lines[0]) != "" then [lines[0]] else []) + NonBlank(lines[1..]);
    }
  }

  /** `COL_NAMES[colIndex] + (rowIndex + 1)`: past column Z, `undefined + n` is `NaN`. */
  function CsvKey(col: nat, row: nat): string {
    if col < Cols then Address(Cell(col, row)) else "NaN"
  }

  /** No address is `NaN`. */
  lemma AddressNotNaN(c: Cell)
    requires c.col < Cols
    ensures Address(c) != "NaN"
  {
  }

  /** Two fields of the grid get the same key only when they are the same field. */
  lemma CsvKeyInjective(c1: nat, r1: nat, c2: nat, r2: nat)
    requires c1 < Cols && CsvKey(c1, r1) == CsvKey(c2, r2)
    ensures c1 == c2 && r1 == r2
  {
    if c2 < Cols {
      AddressInjective(Cell(c1, r1), Cell(c2, r2));
    } else {
      AddressNotNaN(Cell(c1, r1));
    }
  }

  /** The keys line `row` writes to, one per field: the first `n`. */
  function RowKeys(row: nat, n: nat): (keys: seq<string>)
    ensures |keys| == n
  {
    if n == 0 then [] else RowKeys(row, n - 1) + [CsvKey(n - 1, row)]
  }

  lemma {:induction false} RowKeysAt(row: nat, n: nat, j: nat)
    requires j < n
    ensures RowKeys(row, n)[j] == CsvKey(j, row)
  {
    if j < n - 1 {
      RowKeysAt(row, n - 1, j);
    }
  }

  /** The values a line writes, each field trimmed: the first `n`. */
  function RowValues(fields: seq<string>, n: nat): (vals: seq<Value>)
    requires n <= |fields|
    ensures |vals| == n
  {
    if n == 0 then [] else RowValues(fields, n - 1) + [Str(Trim(fields[n - 1]))]
  }

  lemma {:induction false} RowValuesAt(fields: seq<string>, n: nat, j: nat)
    requires j < n <= |fields|
    ensures RowValues(fields, n)[j] == Str(Trim(fields[j]))
  {
    if j < n - 1 {
      RowValuesAt(fields, n - 1, j);
    }
  }

  /** The fields of a line: `line.split(',')`. */
  function Fields(line: string): seq<string> {
    Split(line, ',')
  }

  /** Non-blank line `row - 1` written into `data` as row `row`. */
  function CsvRow(data: Sheet, fields: seq<string>, row: nat): Sheet {
    WriteAll(data, RowKeys(row, |fields|), RowValues(fields, |fields|), |fields|)
  }

  /** The fields of each line. */
  function LineFields(lines: seq<string>): (rows: seq<seq<string>>)
    ensures |rows| == |lines|
  {
    if lines == [] then [] else LineFields(lines[..|lines| - 1]) + [Fields(lines[|lines| - 1])]
  }

  lemma {:induction false} LineFieldsAt(lines: seq<string>, i: nat)
    requires i < |lines|
    ensures LineFields(lines)[i] == Fields(lines[i])
    decreases |lines|
  {
    if i < |lines| - 1 {
      LineFieldsAt(lines[..|lines| - 1], i);
    }
  }

  /** The first `n` rows of fields read into an empty mapping, row `i` as row `i + 1`. */
  function CsvRows(rows: seq<seq<string>>, n: nat): Sheet
    requires n <= |rows|
    decreases n
  {
    if n == 0 then map[] else CsvRow(CsvRows(rows, n - 1), rows[n - 1], n)
  }

  /** The lines of a CSV text that are not blank. */
  function CsvLines(content: string): seq<string> {
    NonBlank(Split(content, '\n'))
  }

  /** The mapping a CSV text is read into: its non-blank lines, split at every comma. */
  function CsvData(content: string): Sheet {
    CsvRows(LineFields(CsvLines(content)), |CsvLines(content)|)
  }

  /** A line stores its field `c` (at most Z), trimmed, under the column's letter and the line's row. */
  lemma CsvRowField(data: Sheet, fields: seq<string>, row: nat, c: nat)
    requires c < Cols && c < |fields|
    ensures Address(Cell(c, row)) in CsvRow(data, fields, row)
    ensures CsvRow(data, fields, row)[Address(Cell(c, row))] == Str(Trim(fields[c]))
  {
    var keys, vals := RowKeys(row, |fields|), RowValues(fields, |fields|);
    RowKeysAt(row, |fields|, c);
    forall i | c < i < |fields| ensures keys[i] != keys[c] {
      RowKeysAt(row, |fields|, i);
      if keys[i] == keys[c] { CsvKeyInjective(c, row, i, row); }
    }
    WriteAllLast(data, keys, vals, |fields|, c);
    RowValuesAt(fields, |fields|, c);
  }

  /** A line leaves the cells of other rows as they were. */
  lemma CsvRowKeeps(data: Sheet, fields: seq<string>, row: nat, c: Cell)
    requires c.col < Cols && c.row != row
    ensures (Address(c) in CsvRow(data, fields, row)) == (Address(c) in data)
    ensures Address(c) in data ==> CsvRow(data, fields, row)[Address(c)] == data[Address(c)]
  {
    var keys := RowKeys(row, |fields|);
    forall j | 0 <= j < |fields| ensures keys[j] != Address(c) {
      RowKeysAt(row, |fields|, j);
      if keys[j] == CsvKey(c.col, c.row) { CsvKeyInjective(c.col, c.row, j, row); }
    }
    WriteAllKeeps(data, keys, RowValues(fields, |fields|), |fields|, Address(c));
  }

  /** Field `c` (at most Z) of row `r`, counting from 1, is stored trimmed under `COL_NAMES[c] + r`. */
  lemma {:induction false} CsvRowsField(rows: seq<seq<string>>, n: nat, r: nat, c: nat)
    requires n <= |rows| && 1 <= r <= n && c < Cols && c < |rows[r - 1]|
    ensures Address(Cell(c, r)) in CsvRows(rows, n)
    ensures CsvRows(rows, n)[Address(Cell(c, r))] == Str(Trim(rows[r - 1][c]))
    decreases n
  {
    if r == n {
      CsvRowField(CsvRows(rows, n - 1), rows[n - 1], n, c);
    } else {
      CsvRowsField(rows, n - 1, r, c);
      CsvRowKeeps(CsvRows(rows, n - 1), rows[n - 1], n, Cell(c, r));
    }
  }

  /** A row with more than 26 fields leaves an entry under the key `NaN`. */
  lemma {:induction false} CsvRowsOverflow(rows: seq<seq<string>>, n: nat, r: nat)
    requires n <= |rows| && 1 <= r <= n && |rows[r - 1]| > Cols
    ensures "NaN" in CsvRows(rows, n)
    decreases n
  {
    var fields := rows[n - 1];
    var keys := RowKeys(n, |fields|);
    if r == n {
      RowKeysAt(n, |fields|, |fields| - 1);
      WriteAllHas(CsvRows(rows, n - 1), keys, RowValues(fields, |fields|), |fields|, |fields| - 1);
    } else {
      CsvRowsOverflow(rows, n - 1, r);
      WriteAllGrows(CsvRows(rows, n - 1), keys, RowValues(fields, |fields|), |fields|, "NaN");
    }
  }

  /**
   * Field `c` (at most Z) of the `r`-th non-blank line of a CSV text, counting from 1, is stored
   * trimmed under `COL_NAMES[c] + r`.
   */
  lemma CsvField(content: string, r: nat, c: nat)
    requires var lines := CsvLines(content);
      1 <= r <= |lines| && c < Cols && c < |Fields(lines[r - 1])|
    ensures var lines := CsvLines(content);
      Address(Cell(c, r)) in CsvData(content)
      && CsvData(content)[Address(Cell(c, r))] == Str(Trim(Fields(lines[r - 1])[c]))
  {
    var lines := CsvLines(content);
    LineFieldsAt(lines, r - 1);
    CsvRowsField(LineFields(lines), |lines|, r, c);
  }

  /** A non-blank line with more than 26 fields leaves an entry under the key `NaN`. */
  lemma CsvOverflow(content: string, r: nat)
    requires var lines := CsvLines(content);
      1 <= r <= |lines| && |Fields(lines[r - 1])| > Cols
    ensures "NaN" in CsvData(content)
  {
    var lines := CsvLines(content);
    LineFieldsAt(lines, r - 1);
    CsvRowsOverflow(LineFields(lines), |lines|, r);
  }

  // Saving writes `JSON.stringify(spreadsheet)`; opening a file that is not CSV reads it with `JSON.parse`.

  /** The JSON values a stored entry can become. */
  datatype Json = JString(s: string) | JNumber(x: real) | JBool(b: bool) | JNull

  /** How `JSON.stringify` writes one value: `NaN` and the infinities become `null`. */
  function Encode(v: Value): (j: Json)
    ensures j.JNull? <==> v.Null? || (v.Number? && !v.n.Finite?)
  {
    match v
    case Str(s) => JString(s)
    case Number(n) => if n.Finite? then JNumber(n.r) else JNull
    case Bool(b) => JBool(b)
    case Null => JNull
  }

  /** How `JSON.parse` reads one value back. */
  function Decode(j: Json): (v: Value)
    ensures v.Number? ==> v.n.Finite?
  {
    match j
    case JString(s) => Str(s)
    case JNumber(x) => Number(Finite(x))
    case JBool(b) => Bool(b)
    case JNull => Null
  }

  /** A value that survives being written out and read back. */
  predicate Storable(v: Value) {
    !(v.Number? && !v.n.Finite?)
  }

  /** One value comes back from a file exactly when it is not `NaN` or infinite. */
  lemma DecodeEncode(v: Value)
    ensures Decode(Encode(v)) == v <==> Storable(v)
  {
  }

  /** Whatever a file holds is written out again unchanged. */
  lemma EncodeDecode(j: Json)
    ensures Encode(Decode(j)) == j
  {
  }

  /** The object `saveSpreadsheet` writes. */
  function SaveJson(m: Sheet): map<string, Json> {
    map k | k in m :: Encode(m[k])
  }

  /** The mapping `JSON.parse` gives back for a saved object. */
  function LoadJson(d: map<string, Json>): Sheet {
    map k | k in d :: Decode(d[k])
  }

  /** Saving and opening the file again restores the sheet exactly when it holds no `NaN` or infinity. */
  lemma SaveLoad(m: Sheet)
    ensures LoadJson(SaveJson(m)) == m <==> forall k :: k in m ==> Storable(m[k])
  {
    var back := LoadJson(SaveJson(m));
    assert back.Keys == m.Keys;
    forall k | k in m ensures back[k] == Decode(Encode(m[k])) {
    }
    if forall k :: k in m ==> Storable(m[k]) {
      forall k | k in m ensures back[k] == m[k] {
        DecodeEncode(m[k]);
      }
    }
    if back == m {
      forall k | k in m ensures Storable(m[k]) {
        DecodeEncode(m[k]);
      }
    }
  }

  /** Opening a file and saving it again writes the same object. */
  lemma LoadSave(d: map<string, Json>)
    ensures SaveJson(LoadJson(d)) == d
  {
    forall k | k in d ensures SaveJson(LoadJson(d))[k] == d[k] {
      EncodeDecode(d[k]);
    }
  }

  // File names and the window title.

  /** `filePath.split(/[\\/]/).pop()` */
  function FileName(path: string): string {
    AfterLast(path, {'/', '\\'})
  }

  /** The file name is what follows the last slash or backslash, or the whole path when there is none. */
  lemma FileNameShape(path: string)
    ensures var name := FileName(path);
      EndsWith(path, name) && '/' !in name && '\\' !in name
      && (|name| < |path| ==> path[|path| - |name| - 1] in {'/', '\\'})
  {
    AfterLastSuffix(path, {'/', '\\'});
  }

  /** `filePath.split('.').pop().toLowerCase()` */
  function Extension(path: string): string {
    ToLower(AfterLast(path, {'.'}))
  }

  /** The extension is the text after the last dot, lower-cased: the whole path, lower-cased, when there is no dot. */
  lemma ExtensionShape(path: string)
    ensures var ext := Extension(path);
      |ext| <= |path| && '.' !in ext
      && (forall i :: 0 <= i < |ext| ==> ext[i] == LowerChar(path[|path| - |ext| + i]))
      && (|ext| < |path| ==> path[|path| - |ext| - 1] == '.')
  {
    var e := AfterLast(path, {'.'});
    AfterLastSuffix(path, {'.'});
    assert forall i :: 0 <= i < |e| ==> LowerChar(e[i]) != '.';
    assert forall i :: 0 <= i < |e| ==> e[i] == path[|path| - |e| + i];
  }

  /** The name shown for the open file: `currentFileName || 'Untitled'`. */
  function DisplayName(fileName: Option<string>): (name: string)
    ensures name != ""
    ensures fileName.Some? && fileName.value != "" ==> name == fileName.value
    ensures fileName.None? || fileName.value == "" ==> name == "Untitled"
  {
    if fileName.Some? && fileName.value != "" then fileName.value else "Untitled"
  }

  /** `updateWindowTitle` */
  function WindowTitle(fileName: Option<string>, dirty: bool): string {
    "Omega Sheets - " + DisplayName(fileName) + (if dirty then " *" else "")
  }

  /** The title names the file, and unsaved changes add a star and nothing else. */
  lemma TitleShape(fileName: Option<string>, dirty: bool)
    ensures StartsWith(WindowTitle(fileName, dirty), "Omega Sheets - ")
    ensures WindowTitle(fileName, false)[15..] == DisplayName(fileName)
    ensures WindowTitle(fileName, true) == WindowTitle(fileName, false) + " *"
    ensures fileName.Some? && fileName.value != "" ==> Contains(WindowTitle(fileName, dirty), fileName.value)
  {
    var t := WindowTitle(fileName, dirty);
    var name := DisplayName(fileName);
    assert t[..15] == "Omega Sheets - ";
    assert t[15..15 + |name|] == name;
    ContainsSlice(t, 15, 15 + |name|);
  }

  /** The name the save dialog proposes: `currentFileName || 'spreadsheet.json'`. */
  function DefaultSavePath(fileName: Option<string>): (path: string)
    ensures path != ""
    ensures fileName.Some? && fileName.value != "" ==> path == fileName.value
    ensures fileName.None? || fileName.value == "" ==> path == "spreadsheet.json"
  {
    if fileName.Some? && fileName.value != "" then fileName.value else "spreadsheet.json"
  }

  // Moving the selection: `navigateCell` and the keys of `handleCellKeydown`.

  /** `x` pulled into `lo..hi`. */
  function Clamp(x: int, lo: int, hi: int): (r: int)
    requires lo <= hi
    ensures lo <= r <= hi
    ensures lo <= x <= hi ==> r == x
    ensures x < lo ==> r == lo
    ensures x > hi ==> r == hi
  {
    if x < lo then lo else if x > hi then hi else x
  }

  /** The cell `navigateCell(row, col)` moves to: the nearest cell of the grid. */
  function NavigateTarget(row: int, col: int): (c: Cell)
    ensures OnGrid(c)
    ensures c.row as int == Clamp(row, 1, Rows) && c.col as int == Clamp(col, 0, Cols - 1)
  {
    Cell(Clamp(col, 0, Cols - 1), Clamp(row, 1, Rows))
  }

  /** The keys the grid reacts to. */
  datatype Key = Enter | Tab | ArrowUp | ArrowDown | ArrowLeft | ArrowRight | OtherKey

  /**
   * The `(row, col)` a key hands to `navigateCell`, or None when the key is left to the browser.
   * The left and right arrows move only when the cell is empty or its text is entirely selected.
   */
  function KeyMove(key: Key, shift: bool, text: string, selection: string, c: Cell): (r: Option<(int, int)>)
    ensures r.Some? ==> (if r.value.0 == c.row then r.value.1 - c.col else r.value.0 - c.row) in {-1, 1}
    ensures r.Some? ==> r.value.0 == c.row || r.value.1 == c.col
    ensures r.None? <==> key == OtherKey || ((key == ArrowLeft || key == ArrowRight) && |text| != 0 && selection != text)
    ensures key == Enter || key == ArrowDown ==> r == Some((c.row + 1, c.col as int))
    ensures key == ArrowUp ==> r == Some((c.row - 1, c.col as int))
    ensures key == Tab ==> r == Some((c.row as int, if shift then c.col - 1 else c.col + 1))
    ensures key == ArrowLeft && r.Some? ==> r.value == (c.row as int, c.col - 1)
    ensures key == ArrowRight && r.Some? ==> r.value == (c.row as int, c.col + 1)
  {
    var row, col := c.row as int, c.col as int;
    match key
    case Enter => Some((row + 1, col))
    case Tab => if shift then Some((row, col - 1)) else Some((row, col + 1))
    case ArrowUp => Some((row - 1, col))
    case ArrowDown => Some((row + 1, col))
    case ArrowLeft => if |text| == 0 || selection == text then Some((row, col - 1)) else None
    case ArrowRight => if |text| == 0 || selection == text then Some((row, col + 1)) else None
    case OtherKey => None
  }

  /** A key that moves takes the selection to a neighbouring cell, or leaves it where it is at the edge. */
  lemma KeyMoveNeighbour(key: Key, shift: bool, text: string, selection: string, c: Cell)
    requires OnGrid(c) && KeyMove(key, shift, text, selection, c).Some?
    ensures var (row, col) := KeyMove(key, shift, text, selection, c).value;
      var t := NavigateTarget(row, col);
      (t.row == c.row || t.col == c.col)
      && (t == c <==> !(1 <= row <= Rows && 0 <= col < Cols))
  {
  }

  /**
   * `updateFormulaBar`: the selected cell's formula when it has a non-empty one, or else its
   * text; empty when nothing is selected.
   */
  function FormulaBarText(g: Grid, selected: Option<Cell>): string {
    if selected.None? then ""
    else if selected.value in g.formula && g.formula[selected.value] != "" then g.formula[selected.value]
    else Shown(g, selected.value)
  }

  /** Whatever was typed into a cell is what the formula bar then shows for it, accepted as a formula or not. */
  lemma InputEchoed(g: Grid, cell: Cell, value: string)
    requires OnGrid(cell)
    ensures FormulaBarText(AfterInput(g, cell, value), Some(cell)) == value
  {
    var r := AfterInput(g, cell, value);
    InputRule(g, cell, value);
    if Accepted(g, cell, value) {
      assert value != "" by { assert StartsWith(value, "="); }
      assert cell in r.formula && r.formula[cell] == value;
    } else {
      assert cell !in r.formula && Shown(r, cell) == value;
    }
  }
}
