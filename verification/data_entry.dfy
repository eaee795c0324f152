/** The edit buffer of the data-entry grid: a single-cell update from typed
    text, and a bulk paste of tab- and newline-separated text anchored at a
    (month, field-row) cell of the twelve-month by seven-row table. */
module DataEntry {
  import opened Types
  import opened Text

  /** `fields`: the row order of the entry grid. */
  const Fields: seq<Field> := [Sales, MaterialCost, AdminLabor, MfgLabor, AdminOH, MfgOH, Depreciation]

  /** The grid row a field is shown on. */
  function FieldIndex(f: Field): (i: nat)
    ensures i < |Fields| && Fields[i] == f
  {
    match f
    case Sales => 0
    case MaterialCost => 1
    case AdminLabor => 2
    case MfgLabor => 3
    case AdminOH => 4
    case MfgOH => 5
    case Depreciation => 6
  }

  /** The rows list every field exactly once: `FieldIndex` inverts `Fields`. */
  lemma FieldsArePermutation()
    ensures |Fields| == 7
    ensures forall i :: 0 <= i < |Fields| ==> FieldIndex(Fields[i]) == i
  {
  }

  /** The figure at (series, month, field). */
  function Cell(y: YearData, t: DataType, m: nat, f: Field): real
    requires m < |y.Series(t)|
  {
    y.Series(t)[m].Get(f)
  }

  /** Whether two buffers have series of the same lengths. */
  predicate SameShape(a: YearData, b: YearData) {
    |a.target| == |b.target| && |a.actual| == |b.actual|
  }

  /** Writes one cell, leaving every other cell of both series as it was. */
  function SetCell(y: YearData, t: DataType, m: nat, f: Field, v: real): (r: YearData)
    requires m < |y.Series(t)|
    ensures SameShape(r, y)
    ensures forall u, n: nat, g :: n < |y.Series(u)| ==>
              Cell(r, u, n, g) == if u == t && n == m && g == f then v else Cell(y, u, n, g)
  {
    var s := y.Series(t);
    y.WithSeries(t, s[m := s[m].Set(f, v)])
  }

  /** `handleChange`: the typed text is stripped to `[0-9.-]`; empty text
      stores 0, otherwise the parsed number is stored. When the stripped
      text does not start a number the source stores NaN, which a real
      cannot hold: that case is `None`. */
  function HandleChange(y: YearData, monthIdx: nat, field: Field, t: DataType, value: string): (r: Option<YearData>)
    requires monthIdx < |y.Series(t)|
    ensures r.None? <==> Clean(value) != "" && !StartsNumber(Clean(value))
    ensures r.Some? ==> SameShape(r.value, y)
    ensures r.Some? ==> forall u, n: nat, g :: n < |y.Series(u)| && (u, n, g) != (t, monthIdx, field) ==>
              Cell(r.value, u, n, g) == Cell(y, u, n, g)
    ensures r.Some? && Clean(value) == "" ==> Cell(r.value, t, monthIdx, field) == 0.0
    ensures r.Some? && Clean(value) != "" ==>
              Some(Cell(r.value, t, monthIdx, field)) == ParseFloat(Clean(value))
  {
    var cleaned := Clean(value);
    if cleaned == "" then Some(SetCell(y, t, monthIdx, field, 0.0))
    else
      match ParseFloat(cleaned)
      case Some(num) => Some(SetCell(y, t, monthIdx, field, num))
      case None => None
  }

  /** Typing a whole number followed by text that stripping removes (a unit
      or currency sign, say) stores exactly that number. */
  lemma HandleChangeReadsNumber(y: YearData, monthIdx: nat, field: Field, t: DataType, n: nat, decoration: string)
    requires monthIdx < |y.Series(t)|
    requires forall i :: 0 <= i < |decoration| ==> !IsNumberChar(decoration[i])
    ensures var r := HandleChange(y, monthIdx, field, t, NatText(n) + decoration);
            r.Some? && Cell(r.value, t, monthIdx, field) == n as real
  {
    CleanAppend(NatText(n), decoration);
    CleanKeepsNumberText(NatText(n));
    CleanDropsAll(decoration);
    assert NatText(n) + decoration != "";
    assert Clean(NatText(n) + decoration) == NatText(n);
    ParseNatText(n);
  }

  lemma {:induction false} CleanDropsAll(s: string)
    requires forall i :: 0 <= i < |s| ==> !IsNumberChar(s[i])
    ensures Clean(s) == ""
    decreases |s|
  {
    if |s| > 0 {
      CleanDropsAll(s[1..]);
    }
  }

  /** A lone '-', typed on the way to a negative number, is stored as NaN. */
  lemma HandleChangeLoneMinus(y: YearData, monthIdx: nat, field: Field, t: DataType)
    requires monthIdx < |y.Series(t)|
    ensures HandleChange(y, monthIdx, field, t, "-").None?
  {
    assert Clean("-") == "-";
  }

  /** The number a pasted cell stores: `parseFloat(stripped) || 0`, so NaN
      (and an empty cell) becomes 0. */
  function CellNumber(cellText: string): real {
    ParseFloat(Clean(cellText)).GetOr(0.0)
  }

  /** A pasted cell whose stripped text starts a number stores that number. */
  lemma CellNumberReadsNumber(cellText: string)
    requires StartsNumber(Clean(cellText))
    ensures ParseFloat(Clean(cellText)) == Some(CellNumber(cellText))
  {
  }

  /** A pasted cell without any number in it stores 0. */
  lemma CellNumberDefaultsToZero(cellText: string)
    requires !StartsNumber(Clean(cellText))
    ensures CellNumber(cellText) == 0.0
  {
  }

  /** The pasted text as a grid: rows split on line breaks, blank rows
      dropped before offsets are given, and each row split on tabs. */
  function PasteGrid(text: string): (grid: seq<seq<string>>)
    ensures var rows := NonBlankRows(SplitLines(text));
            && |grid| == |rows|
            && forall r :: 0 <= r < |grid| ==> JoinWith(grid[r], "\t") == rows[r] && |grid[r]| >= 1
    ensures forall r, c :: 0 <= r < |grid| && 0 <= c < |grid[r]| ==> '\t' !in grid[r][c]
  {
    var rows := NonBlankRows(SplitLines(text));
    var grid := seq(|rows|, r requires 0 <= r < |rows| => SplitOn(rows[r], '\t'));
    assert forall r :: 0 <= r < |grid| ==> JoinWith(grid[r], "\t") == rows[r] by {
      forall r | 0 <= r < |grid| {
        JoinSplitOn(rows[r], '\t');
      }
    }
    grid
  }

  /** The entry that lands on (month m, grid row fi) when `grid` is pasted
      at (startMonth, startField): grid entry (r, c) goes to month
      startMonth + c and row startField + r. */
  function Landing<T>(grid: seq<seq<T>>, startMonth: nat, startField: nat, m: nat, fi: nat): Option<T> {
    if startField <= fi && fi - startField < |grid|
       && startMonth <= m && m - startMonth < |grid[fi - startField]|
    then Some(grid[fi - startField][m - startMonth])
    else None
  }

  /** Dropping the top row of a grid and anchoring one row lower lands the
      same entries everywhere except on the dropped row. */
  lemma LandingShift<T>(grid: seq<seq<T>>, startMonth: nat, startField: nat, m: nat, fi: nat)
    requires |grid| > 0
    ensures fi != startField ==>
              Landing(grid[1..], startMonth, startField + 1, m, fi) == Landing(grid, startMonth, startField, m, fi)
    ensures fi == startField ==>
              && Landing(grid[1..], startMonth, startField + 1, m, fi).None?
              && Landing(grid, startMonth, startField, m, fi).Some? == (startMonth <= m < startMonth + |grid[0]|)
              && (startMonth <= m < startMonth + |grid[0]| ==>
                    Landing(grid, startMonth, startField, m, fi).value == grid[0][m - startMonth])
  {
    if fi != startField && startField < fi && fi - startField < |grid| {
      assert grid[1..][fi - (startField + 1)] == grid[fi - startField];
    }
  }

  /** Every pasted cell text read as the number it stores. */
  function CellNumbers(grid: seq<seq<string>>): (nums: seq<seq<real>>)
    ensures |nums| == |grid|
    ensures forall i :: 0 <= i < |grid| ==> |nums[i]| == |grid[i]|
    ensures forall i, j :: 0 <= i < |grid| && 0 <= j < |grid[i]| ==> nums[i][j] == CellNumber(grid[i][j])
  {
    seq(|grid|, i requires 0 <= i < |grid| => seq(|grid[i]|, j requires 0 <= j < |grid[i]| => CellNumber(grid[i][j])))
  }

  /** A number lands exactly where its cell text lands. */
  lemma LandingNumbers(grid: seq<seq<string>>, startMonth: nat, startField: nat, m: nat, fi: nat)
    ensures var l := Landing(grid, startMonth, startField, m, fi);
            var ln := Landing(CellNumbers(grid), startMonth, startField, m, fi);
            ln.Some? == l.Some? && (l.Some? ==> ln.value == CellNumber(l.value))
  {
  }

  /** One write of the paste loop: kept only inside the 12 x 7 table. */
  function WriteCell(y: YearData, tab: DataType, mIdx: nat, fIdx: nat, v: real): (r: YearData)
    requires MonthCount <= |y.Series(tab)|
    ensures SameShape(r, y)
    ensures forall u, n: nat, g :: n < |y.Series(u)| ==>
              Cell(r, u, n, g) == if u == tab && n == mIdx && n < MonthCount && FieldIndex(g) == fIdx
                                  then v else Cell(y, u, n, g)
  {
    if mIdx < MonthCount && fIdx < |Fields| then
      FieldsArePermutation();
      assert forall g :: g == Fields[fIdx] <==> FieldIndex(g) == fIdx;
      SetCell(y, tab, mIdx, Fields[fIdx], v)
    else y
  }

  /** `rowText.forEach`: the numbers of one pasted row, left to right from
      month mIdx, on grid row fIdx. */
  function PlaceRow(y: YearData, tab: DataType, mIdx: nat, fIdx: nat, row: seq<real>): (r: YearData)
    requires MonthCount <= |y.Series(tab)|
    ensures SameShape(r, y)
    ensures forall u, n: nat, g :: n < |y.Series(u)| ==>
              Cell(r, u, n, g) == if u == tab && n < MonthCount && FieldIndex(g) == fIdx
                                     && mIdx <= n < mIdx + |row|
                                  then row[n - mIdx] else Cell(y, u, n, g)
    decreases |row|
  {
    if |row| == 0 then y
    else PlaceRow(WriteCell(y, tab, mIdx, fIdx, row[0]), tab, mIdx + 1, fIdx, row[1..])
  }

  /** `gridText.forEach`: the rows of the grid, top to bottom from grid row
      fIdx, each anchored at startMonth. */
  function PlaceGrid(y: YearData, tab: DataType, startMonth: nat, fIdx: nat, grid: seq<seq<real>>): (r: YearData)
    requires MonthCount <= |y.Series(tab)|
    ensures SameShape(r, y)
    ensures forall u, n: nat, g :: n < |y.Series(u)| ==>
              Cell(r, u, n, g) == if u == tab && n < MonthCount && Landing(grid, startMonth, fIdx, n, FieldIndex(g)).Some?
                                  then Landing(grid, startMonth, fIdx, n, FieldIndex(g)).value
                                  else Cell(y, u, n, g)
    decreases |grid|
  {
    if |grid| == 0 then y
    else
      var y1 := PlaceRow(y, tab, startMonth, fIdx, grid[0]);
      var r := PlaceGrid(y1, tab, startMonth, fIdx + 1, grid[1..]);
      assert forall n: nat, fi: nat ::
               && (fi != fIdx ==> Landing(grid[1..], startMonth, fIdx + 1, n, fi) == Landing(grid, startMonth, fIdx, n, fi))
               && (fi == fIdx ==> Landing(grid[1..], startMonth, fIdx + 1, n, fi).None?
                                  && Landing(grid, startMonth, fIdx, n, fi).Some? == (startMonth <= n < startMonth + |grid[0]|)
                                  && (startMonth <= n < startMonth + |grid[0]| ==>
                                        Landing(grid, startMonth, fIdx, n, fi).value == grid[0][n - startMonth])) by {
        forall n: nat, fi: nat {
          LandingShift(grid, startMonth, fIdx, n, fi);
        }
      }
      r
  }

  /** `handlePaste`: empty clipboard text changes nothing; otherwise every
      pasted cell that lands inside the table overwrites the active series
      with the number it reads as, and every other cell of both series
      keeps its value. */
  function HandlePaste(y: YearData, tab: DataType, startMonthIdx: nat, startFieldIdx: nat, text: string): (r: YearData)
    requires MonthCount <= |y.Series(tab)|
    ensures SameShape(r, y)
    ensures text == "" ==> r == y
    ensures forall u, n: nat, g :: n < |y.Series(u)| ==>
              Cell(r, u, n, g) ==
                var landing := Landing(PasteGrid(text), startMonthIdx, startFieldIdx, n, FieldIndex(g));
                if u == tab && n < MonthCount && landing.Some? then CellNumber(landing.value)
                else Cell(y, u, n, g)
  {
    if text == "" then y
    else
      var grid := PasteGrid(text);
      assert forall n: nat, fi: nat ::
               var l := Landing(grid, startMonthIdx, startFieldIdx, n, fi);
               var ln := Landing(CellNumbers(grid), startMonthIdx, startFieldIdx, n, fi);
               ln.Some? == l.Some? && (l.Some? ==> ln.value == CellNumber(l.value)) by {
        forall n: nat, fi: nat {
          LandingNumbers(grid, startMonthIdx, startFieldIdx, n, fi);
        }
      }
      PlaceGrid(y, tab, startMonthIdx, startFieldIdx, CellNumbers(grid))
  }

  /** Two series of equal length are equal when they agree on every cell. */
  lemma SeriesEqual(a: YearData, b: YearData, t: DataType)
    requires |a.Series(t)| == |b.Series(t)|
    requires forall n: nat, g :: n < |a.Series(t)| ==> Cell(a, t, n, g) == Cell(b, t, n, g)
    ensures a.Series(t) == b.Series(t)
  {
    forall n | 0 <= n < |a.Series(t)|
      ensures a.Series(t)[n] == b.Series(t)[n]
    {
      assert forall g :: a.Series(t)[n].Get(g) == Cell(a, t, n, g) == Cell(b, t, n, g) == b.Series(t)[n].Get(g);
      FieldwiseEqual(a.Series(t)[n], b.Series(t)[n]);
    }
  }

  /** A paste writes only into the active tab's series. */
  lemma PasteKeepsOtherSeries(y: YearData, tab: DataType, startMonthIdx: nat, startFieldIdx: nat, text: string, u: DataType)
    requires MonthCount <= |y.Series(tab)|
    requires u != tab
    ensures HandlePaste(y, tab, startMonthIdx, startFieldIdx, text).Series(u) == y.Series(u)
  {
    var r := HandlePaste(y, tab, startMonthIdx, startFieldIdx, text);
    assert |r.Series(u)| == |y.Series(u)|;
    SeriesEqual(r, y, u);
  }

  /** A paste onto a well-formed buffer leaves it well formed. */
  lemma PasteKeepsWellFormed(y: YearData, tab: DataType, startMonthIdx: nat, startFieldIdx: nat, text: string)
    requires WellFormed(y)
    ensures WellFormed(HandlePaste(y, tab, startMonthIdx, startFieldIdx, text))
  {
  }

  lemma CellNumberOfNat(n: nat)
    ensures CellNumber(NatText(n)) == n as real
  {
    CleanKeepsNumberText(NatText(n));
    ParseNatText(n);
  }

  /** A cell a spreadsheet can copy as one cell: no tab, no line break. */
  predicate CopyableCell(c: string) {
    '\t' !in c && NoLineBreak(c)
  }

  /** A block of cells as a spreadsheet copies it: cells joined by tabs,
      rows joined by line breaks. */
  function GridText(cells: seq<seq<string>>, lineSep: string): string {
    JoinWith(seq(|cells|, i requires 0 <= i < |cells| => JoinWith(cells[i], "\t")), lineSep)
  }

  lemma {:induction false} JoinNoLineBreak(parts: seq<string>, sep: string)
    requires NoLineBreak(sep)
    requires forall i :: 0 <= i < |parts| ==> NoLineBreak(parts[i])
    ensures NoLineBreak(JoinWith(parts, sep))
    decreases |parts|
  {
    if |parts| > 1 {
      JoinNoLineBreak(parts[1..], sep);
    }
  }

  /** Pasting a copied block recovers the block: with rows that are not
      blank, `PasteGrid` inverts `GridText` for every line separator. */
  lemma PasteGridOfCopy(cells: seq<seq<string>>, lineSep: string)
    requires |cells| >= 1
    requires IsLineSeparator(lineSep)
    requires forall i :: 0 <= i < |cells| ==>
               && |cells[i]| >= 1
               && (forall j :: 0 <= j < |cells[i]| ==> CopyableCell(cells[i][j]))
               && !IsBlank(JoinWith(cells[i], "\t"))
    ensures PasteGrid(GridText(cells, lineSep)) == cells
  {
    var rows := seq(|cells|, i requires 0 <= i < |cells| => JoinWith(cells[i], "\t"));
    forall i | 0 <= i < |cells|
      ensures NoLineBreak(rows[i])
    {
      JoinNoLineBreak(cells[i], "\t");
    }
    SplitLinesJoin(rows, lineSep);
    NonBlankRowsKeeps(rows);
    forall i | 0 <= i < |cells|
      ensures SplitOn(rows[i], '\t') == cells[i]
    {
      SplitOnJoin(cells[i], '\t');
    }
  }

  /** Pasted cell (r, c) goes to month startMonthIdx + c and to grid row
      startFieldIdx + r (named `month` and `row`), when both are inside
      the table. */
  lemma PasteCellLands(y: YearData, tab: DataType, startMonthIdx: nat, startFieldIdx: nat, text: string,
                       r: nat, c: nat, month: nat, row: nat)
    requires MonthCount <= |y.Series(tab)|
    requires text != ""
    requires r < |PasteGrid(text)| && c < |PasteGrid(text)[r]|
    requires month == startMonthIdx + c < MonthCount && row == startFieldIdx + r < |Fields|
    ensures Cell(HandlePaste(y, tab, startMonthIdx, startFieldIdx, text), tab, month, Fields[row])
            == CellNumber(PasteGrid(text)[r][c])
  {
    var grid := PasteGrid(text);
    FieldsArePermutation();
    assert FieldIndex(Fields[row]) == row;
    assert Landing(grid, startMonthIdx, startFieldIdx, month, row) == Some(grid[r][c]);
  }

  /** Pasted cells that would land past December or below the last row are
      dropped: no cell outside the pasted rectangle changes. */
  lemma PasteOutsideUnchanged(y: YearData, tab: DataType, startMonthIdx: nat, startFieldIdx: nat, text: string, n: nat, g: Field)
    requires MonthCount <= |y.Series(tab)|
    requires n < |y.Series(tab)|
    requires Landing(PasteGrid(text), startMonthIdx, startFieldIdx, n, FieldIndex(g)).None? || MonthCount <= n
    ensures Cell(HandlePaste(y, tab, startMonthIdx, startFieldIdx, text), tab, n, g) == Cell(y, tab, n, g)
  {
  }

  lemma NatTextCopyable(n: nat)
    ensures CopyableCell(NatText(n)) && !IsBlank(NatText(n))
  {
    var t := NatText(n);
    assert !IsWhitespace(t[0]);
    forall i | 0 <= i < |t|
      ensures t[i] != '\t' && !IsLineBreak(t[i])
    {
      assert IsDigit(t[i]);
    }
  }

  lemma NotBlankBefore(a: string, rest: string)
    requires !IsBlank(a)
    ensures !IsBlank(a + rest)
  {
    var i :| 0 <= i < |a| && !IsWhitespace(a[i]);
    assert (a + rest)[i] == a[i];
  }

  /** A block of whole numbers as text cells. */
  function NumberCells(nss: seq<seq<nat>>): (cells: seq<seq<string>>)
    ensures |cells| == |nss|
    ensures forall i :: 0 <= i < |nss| ==> |cells[i]| == |nss[i]|
    ensures forall i, j :: 0 <= i < |nss| && 0 <= j < |nss[i]| ==> cells[i][j] == NatText(nss[i][j])
  {
    seq(|nss|, i requires 0 <= i < |nss| => seq(|nss[i]|, j requires 0 <= j < |nss[i]| => NatText(nss[i][j])))
  }

  lemma JoinedNumbersNotBlank(ns: seq<string>, sep: string)
    requires |ns| >= 1 && !IsBlank(ns[0])
    ensures !IsBlank(JoinWith(ns, sep))
  {
    if |ns| > 1 {
      assert JoinWith(ns, sep) == ns[0] + (sep + JoinWith(ns[1..], sep));
      NotBlankBefore(ns[0], sep + JoinWith(ns[1..], sep));
    }
  }

  /** A copied block of whole numbers pastes back as that block. */
  lemma NumberGrid(nss: seq<seq<nat>>)
    requires |nss| >= 1
    requires forall i :: 0 <= i < |nss| ==> |nss[i]| >= 1
    ensures GridText(NumberCells(nss), "\n") != ""
    ensures PasteGrid(GridText(NumberCells(nss), "\n")) == NumberCells(nss)
  {
    var cells := NumberCells(nss);
    forall i | 0 <= i < |cells|
      ensures forall j :: 0 <= j < |cells[i]| ==> CopyableCell(cells[i][j])
      ensures !IsBlank(JoinWith(cells[i], "\t"))
    {
      forall j | 0 <= j < |cells[i]|
        ensures CopyableCell(cells[i][j])
      {
        NatTextCopyable(nss[i][j]);
      }
      NatTextCopyable(nss[i][0]);
      JoinedNumbersNotBlank(cells[i], "\t");
    }
    PasteGridOfCopy(cells, "\n");
    var rows := seq(|cells|, i requires 0 <= i < |cells| => JoinWith(cells[i], "\t"));
    JoinedNumbersNotBlank(rows, "\n");
  }

  /** A copied block of whole numbers pasted at (sm, sf) stores number
      (r, c) of the block in month sm + c of grid row sf + r (named
      `month` and `row`). */
  lemma PasteNumberLands(y: YearData, tab: DataType, sm: nat, sf: nat, nss: seq<seq<nat>>, r: nat, c: nat, month: nat, row: nat)
    requires MonthCount <= |y.Series(tab)|
    requires |nss| >= 1 && forall i :: 0 <= i < |nss| ==> |nss[i]| >= 1
    requires r < |nss| && c < |nss[r]|
    requires month == sm + c < MonthCount && row == sf + r < |Fields|
    ensures Cell(HandlePaste(y, tab, sm, sf, GridText(NumberCells(nss), "\n")), tab, month, Fields[row])
            == nss[r][c] as real
  {
    var text := GridText(NumberCells(nss), "\n");
    NumberGrid(nss);
    CellNumberOfNat(nss[r][c]);
    PasteCellLands(y, tab, sm, sf, text, r, c, month, row);
  }

  /** A copied 2 x 2 block of whole numbers, pasted at (month m, row f),
      fills months m and m + 1 of rows f and f + 1 with those numbers, as
      "10\t20\n30\t40" pasted at January's sales cell fills sales with 10
      and 20 and material cost with 30 and 40. */
  lemma PasteTwoByTwo(y: YearData, tab: DataType, m: nat, f: nat, nss: seq<seq<nat>>)
    requires MonthCount <= |y.Series(tab)|
    requires m + 1 < MonthCount && f + 1 < |Fields|
    requires |nss| == 2 && |nss[0]| == 2 && |nss[1]| == 2
    ensures var r := HandlePaste(y, tab, m, f, GridText(NumberCells(nss), "\n"));
            && Cell(r, tab, m, Fields[f]) == nss[0][0] as real && Cell(r, tab, m + 1, Fields[f]) == nss[0][1] as real
            && Cell(r, tab, m, Fields[f + 1]) == nss[1][0] as real && Cell(r, tab, m + 1, Fields[f + 1]) == nss[1][1] as real
  {
    PasteNumberLands(y, tab, m, f, nss, 0, 0, m, f);
    PasteNumberLands(y, tab, m, f, nss, 0, 1, m + 1, f);
    PasteNumberLands(y, tab, m, f, nss, 1, 0, m, f + 1);
    PasteNumberLands(y, tab, m, f, nss, 1, 1, m + 1, f + 1);
  }

  /** A copied row of three whole numbers pasted at November writes
      November and December; the third value, which would fall past
      December, is dropped. */
  lemma PastePastDecemberDropped(y: YearData, tab: DataType, f: nat, a: nat, b: nat, c: nat)
    requires MonthCount <= |y.Series(tab)|
    requires f < |Fields|
    ensures var r := HandlePaste(y, tab, 10, f, GridText(NumberCells([[a, b, c]]), "\n"));
            Cell(r, tab, 10, Fields[f]) == a as real && Cell(r, tab, 11, Fields[f]) == b as real
  {
    PasteNumberLands(y, tab, 10, f, [[a, b, c]], 0, 0, 10, f);
    PasteNumberLands(y, tab, 10, f, [[a, b, c]], 0, 1, 11, f);
  }

  /** That paste changes no cell outside November and December of its row. */
  lemma PastePastDecemberFrame(y: YearData, tab: DataType, f: nat, a: nat, b: nat, c: nat, n: nat, g: Field)
    requires MonthCount <= |y.Series(tab)|
    requires f < |Fields|
    requires n < |y.Series(tab)| && (n < 10 || MonthCount <= n || g != Fields[f])
    ensures var r := HandlePaste(y, tab, 10, f, GridText(NumberCells([[a, b, c]]), "\n"));
            Cell(r, tab, n, g) == Cell(y, tab, n, g)
  {
    var nss: seq<seq<nat>> := [[a, b, c]];
    var text := GridText(NumberCells(nss), "\n");
    NumberGrid(nss);
    FieldsArePermutation();
    PasteOutsideUnchanged(y, tab, 10, f, text, n, g);
  }

  /** The grid of a paste whose first two lines are empty or spaces is the
      one number row that follows them. */
  lemma BlankLinesSkipped(a: nat)
    ensures JoinWith(["", " ", NatText(a)], "\n") != ""
    ensures PasteGrid(JoinWith(["", " ", NatText(a)], "\n")) == [[NatText(a)]]
  {
    var lines := ["", " ", NatText(a)];
    var text := JoinWith(lines, "\n");
    NatTextCopyable(a);
    SplitLinesJoin(lines, "\n");
    NonBlankDropsTwo(lines);
    SplitOnJoin([NatText(a)], '\t');
    assert text == "" + "\n" + JoinWith(lines[1..], "\n");
  }

  lemma NonBlankDropsTwo(lines: seq<string>)
    requires |lines| == 3 && lines[0] == "" && lines[1] == " " && !IsBlank(lines[2])
    ensures NonBlankRows(lines) == [lines[2]]
  {
    assert NonBlankRows(lines[2..]) == [lines[2]];
    assert NonBlankRows(lines[1..]) == [lines[2]];
  }

  /** Blank rows are removed before row offsets are given: a paste whose
      first two lines are empty or spaces still lands on the anchor row. */
  lemma PasteSkipsBlankRows(y: YearData, tab: DataType, m: nat, f: nat, a: nat)
    requires MonthCount <= |y.Series(tab)|
    requires m < MonthCount && f < |Fields|
    ensures Cell(HandlePaste(y, tab, m, f, JoinWith(["", " ", NatText(a)], "\n")), tab, m, Fields[f]) == a as real
  {
    var text := JoinWith(["", " ", NatText(a)], "\n");
    BlankLinesSkipped(a);
    CellNumberOfNat(a);
    PasteCellLands(y, tab, m, f, text, 0, 0, m, f);
  }
}
