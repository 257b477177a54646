/**
 * excel_handler.py: the active worksheet as a map from (row, column) to the cell's text, the
 * output path default, and cell addresses such as "A1". Loading and saving the workbook are
 * abstracted: what `load_workbook` finds is a parameter.
 */
module Excel {
  import opened Wrappers
  import Strings
  import Utils
  import Paths

  /** The cells that hold a value; a cell that is not in the map is empty. */
  type Cells = map<(int, int), string>

  /** openpyxl refuses a row or a column below 1; the handler re-raises it. */
  datatype CellError = InvalidCoordinates(row: int, col: int)

  /**
   * The exceptions of `__init__`: `FileNotFoundError` when the input does not exist, and the
   * exception `load_workbook` raises for a file it cannot read as a workbook.
   */
  datatype OpenError = FileNotFound(path: string) | LoadFailed(path: string)

  /** What the input path holds: nothing, a file `load_workbook` rejects, or a workbook. */
  datatype InputFile = NoFile | NotAWorkbook | Workbook(sheet: Sheet)

  /** The active sheet of the loaded workbook. */
  datatype Sheet = Sheet(cells: Cells, title: string)

  predicate ValidCell(row: int, col: int) {
    row >= 1 && col >= 1
  }

  /** `get_cell_value`: the text of the cell, "" for an empty one, an error off the sheet. */
  function ReadCell(cells: Cells, row: int, col: int): (r: Result<string, CellError>)
    ensures r.Failure? <==> !ValidCell(row, col)
    ensures r.Failure? ==> r.error == InvalidCoordinates(row, col)
    ensures r.Success? ==> r.value == if (row, col) in cells then cells[(row, col)] else ""
  {
    if !ValidCell(row, col) then Failure(InvalidCoordinates(row, col))
    else if (row, col) in cells then Success(cells[(row, col)])
    else Success("")
  }

  /** `set_cell_value`: the one cell takes the value, an error off the sheet. */
  function WriteCell(cells: Cells, row: int, col: int, value: string): (r: Result<Cells, CellError>)
    ensures r.Failure? <==> !ValidCell(row, col)
    ensures r.Failure? ==> r.error == InvalidCoordinates(row, col)
    ensures r.Success? ==> r.value.Keys == cells.Keys + {(row, col)}
  {
    if !ValidCell(row, col) then Failure(InvalidCoordinates(row, col)) else Success(cells[(row, col) := value])
  }

  /**
   * After a write, the written cell reads back the value and every other cell reads as before;
   * a cell never written reads as "".
   */
  lemma ReadAfterWrite(cells: Cells, row: int, col: int, value: string, r: int, c: int)
    requires ValidCell(row, col)
    ensures var w := WriteCell(cells, row, col, value).value;
            ReadCell(w, r, c) == if (r, c) == (row, col) then Success(value) else ReadCell(cells, r, c)
  {
  }

  /** A cell that is set on no sheet reads as "". */
  lemma UnsetCellIsEmpty(row: int, col: int)
    requires ValidCell(row, col)
    ensures ReadCell(map[], row, col) == Success("")
  {
  }

  /** `f"{number_to_excel_column(col)}{row}"`. */
  function CellAddress(row: int, col: nat): string {
    Utils.ColumnLetters(col) + Strings.Decimal(row)
  }

  /** (1, 1) is "A1", (1, 6) is "F1" and (10, 27) is "AA10". */
  lemma CellAddressExamples()
    ensures CellAddress(1, 1) == "A1" && CellAddress(1, 6) == "F1" && CellAddress(10, 27) == "AA10"
  {
    Utils.ColumnExamples();
    assert Utils.ColumnLetters(6) == [Utils.LetterOf(5)];
    assert Strings.Digits(10) == Strings.Digits(1) + [Strings.DigitChar(0)];
  }

  /** Different cells have different addresses: the letters end where the row's digits begin. */
  lemma CellAddressInjective(r1: int, c1: nat, r2: int, c2: nat)
    requires CellAddress(r1, c1) == CellAddress(r2, c2)
    ensures r1 == r2 && c1 == c2
  {
    var l1, l2 := Utils.ColumnLetters(c1), Utils.ColumnLetters(c2);
    var d1, d2 := Strings.Decimal(r1), Strings.Decimal(r2);
    var s := CellAddress(r1, c1);
    Utils.ColumnLettersShape(c1);
    Utils.ColumnLettersShape(c2);
    NotALetter(r1);
    NotALetter(r2);
    LettersThenOther(l1, d1);
    LettersThenOther(l2, d2);
    assert |l1| == |l2|;
    assert l1 == s[..|l1|] == l2;
    assert d1 == s[|l1|..] == d2;
    Utils.NumberRoundTrip(c1);
    Utils.NumberRoundTrip(c2);
    DecimalInjective(r1, r2);
  }

  /** `str(row)` starts with a digit or '-', never with a letter. */
  lemma NotALetter(n: int)
    ensures Strings.Decimal(n) != [] && !Utils.IsUpperLetter(Strings.Decimal(n)[0])
  {
  }

  /** In letters followed by a non-letter, the first non-letter is where the letters end. */
  lemma LettersThenOther(l: string, d: string)
    requires Utils.IsColumnName(l) && d != [] && !Utils.IsUpperLetter(d[0])
    ensures forall i :: 0 <= i < |l| ==> Utils.IsUpperLetter((l + d)[i])
    ensures !Utils.IsUpperLetter((l + d)[|l|])
  {
  }

  lemma DecimalInjective(m: int, n: int)
    requires Strings.Decimal(m) == Strings.Decimal(n)
    ensures m == n
  {
    var dm, dn := Strings.Decimal(m), Strings.Decimal(n);
    if m < 0 && n < 0 {
      assert dm[1..] == Strings.Digits(-m) && dn[1..] == Strings.Digits(-n);
      Strings.DigitsInjective(-m, -n);
    } else if m >= 0 && n >= 0 {
      Strings.DigitsInjective(m, n);
    }
  }

  class ExcelHandler {
    const inputPath: string
    const outputPath: string
    var cells: Cells
    const sheetTitle: string

    /**
     * `__init__` once the input exists: the given output path unless it is missing or empty,
     * else the generated one; the cells and the title of the active sheet.
     */
    constructor (inputPath: string, outputPath: Option<string>, sheet: Sheet)
      ensures this.inputPath == inputPath
      ensures this.outputPath == if Truthy(outputPath) then outputPath.value else Paths.DefaultOutputPath(inputPath)
      ensures cells == sheet.cells && sheetTitle == sheet.title
    {
      this.inputPath := inputPath;
      this.outputPath := if Truthy(outputPath) then outputPath.value else Paths.DefaultOutputPath(inputPath);
      cells := sheet.cells;
      sheetTitle := sheet.title;
    }

    /**
     * `ExcelHandler(input_path, output_path)`: the `FileNotFoundError` when nothing is at the
     * path, checked first; the loader's exception when the file is not a workbook.
     */
    static method Open(inputPath: string, outputPath: Option<string>, found: InputFile)
      returns (r: Result<ExcelHandler, OpenError>)
      ensures r.Failure? <==> !found.Workbook?
      ensures found.NoFile? ==> r == Failure(FileNotFound(inputPath))
      ensures found.NotAWorkbook? ==> r == Failure(LoadFailed(inputPath))
      ensures r.Success? ==> fresh(r.value) && r.value.inputPath == inputPath
                             && r.value.outputPath == (if Truthy(outputPath) then outputPath.value
                                                       else Paths.DefaultOutputPath(inputPath))
                             && r.value.cells == found.sheet.cells && r.value.sheetTitle == found.sheet.title
    {
      if found.NoFile? {
        return Failure(FileNotFound(inputPath));
      }
      if found.NotAWorkbook? {
        return Failure(LoadFailed(inputPath));
      }
      var h := new ExcelHandler(inputPath, outputPath, found.sheet);
      r := Success(h);
    }

    /**
     * `_generate_output_path`: in the input's directory, the input's file name with
     * "_translated" before its extension.
     */
    function GenerateOutputPath(): (r: string)
      ensures var parts := Paths.Splitext(Paths.Basename(inputPath));
              && Paths.Dirname(r) == Paths.Dirname(inputPath)
              && Paths.Basename(r) == parts.0 + Paths.Suffix + parts.1
              && Paths.Splitext(Paths.Basename(r)) == (parts.0 + Paths.Suffix, parts.1)
    {
      Paths.DefaultOutputPathShape(inputPath);
      Paths.DefaultOutputPath(inputPath)
    }

    function GetCellValue(row: int, col: int): Result<string, CellError>
      reads this
    {
      ReadCell(cells, row, col)
    }

    method SetCellValue(row: int, col: int, value: string) returns (r: Outcome<CellError>)
      modifies this
      ensures var w := WriteCell(old(cells), row, col, value);
              && (w.Failure? ==> r == Fail(w.error) && cells == old(cells))
              && (w.Success? ==> r == Pass && cells == w.value)
    {
      if !ValidCell(row, col) {
        return Fail(InvalidCoordinates(row, col));
      }
      cells := cells[(row, col) := value];
      r := Pass;
    }

    /** `get_sheet_name`: the title, which no write changes. */
    function GetSheetName(): string {
      sheetTitle
    }

    /** `get_cell_address`; the column must not be negative, where `number_to_excel_column` hangs. */
    method GetCellAddress(row: int, col: int) returns (r: string)
      requires col >= 0
      ensures r == CellAddress(row, col)
    {
      var letters := Utils.NumberToExcelColumn(col);
      r := letters + Strings.Decimal(row);
    }
  }
}
