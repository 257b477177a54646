/**
 * cli_interface.py: parsing of column specifications such as "A,B,C-E", the checks of
 * batch mode in `parse_args`, the row range rule and the default output path.
 */
module Cli {
  import opened Wrappers
  import Strings
  import Utils
  import Paths

  // ---------------------------------------------------------------------------
  // Column specifications

  /** The `ValueError` of `start, end = part.split('-')` when the token does not split in two. */
  datatype ColumnError = UnpackError(token: string)

  /** Python's `range(lo, hi)`. */
  function Range(lo: int, hi: int): (r: seq<int>)
    ensures |r| == if lo < hi then hi - lo else 0
    ensures forall i :: 0 <= i < |r| ==> r[i] == lo + i
  {
    seq(if lo < hi then hi - lo else 0, i => lo + i)
  }

  /** `excel_column_to_number(s)`. */
  function ColumnNumber(s: string): int {
    Utils.ColumnValue(Strings.Upper(s))
  }

  /**
   * The columns one comma-separated token contributes: an inclusive range for "X-Y" (empty when
   * reversed), one column otherwise; an error when "X-Y" does not unpack into two parts.
   */
  function TokenColumns(part: string): Result<seq<int>, ColumnError> {
    if '-' in part then RangeColumns(part) else Success([ColumnNumber(Strings.Strip(part))])
  }

  /** `start, end = part.split('-')`, then every column from start's to end's. */
  function RangeColumns(part: string): Result<seq<int>, ColumnError> {
    var pieces := Strings.Split(part, '-');
    if |pieces| != 2 then Failure(UnpackError(part))
    else
      var startNum := ColumnNumber(Strings.Strip(pieces[0]));
      var endNum := ColumnNumber(Strings.Strip(pieces[1]));
      Success(Range(startNum, endNum + 1))
  }

  /** A token is rejected exactly when it holds two or more '-'; a token without '-' gives one column. */
  lemma TokenFailsIffTwoDashes(part: string)
    ensures TokenColumns(part).Failure? <==> Strings.Count(part, '-') >= 2
    ensures TokenColumns(part).Failure? ==> TokenColumns(part).error == UnpackError(part)
    ensures '-' !in part ==> TokenColumns(part).Success? && |TokenColumns(part).value| == 1
  {
    Strings.CountPositive(part, '-');
  }

  /** One list of columns followed by another, or the first error. */
  function Concat(a: Result<seq<int>, ColumnError>, b: Result<seq<int>, ColumnError>): Result<seq<int>, ColumnError> {
    if a.Failure? then a
    else if b.Failure? then b
    else Success(a.value + b.value)
  }

  /** Columns of a list of tokens, left to right; the first failing token decides the error. */
  function ColumnsOf(parts: seq<string>): Result<seq<int>, ColumnError> {
    if parts == [] then Success([])
    else Concat(ColumnsOf(parts[..|parts| - 1]), TokenColumns(parts[|parts| - 1]))
  }

  /** Columns of the spec as the parsing loops compute them. */
  function SpecColumns(spec: string): Result<seq<int>, ColumnError> {
    ColumnsOf(Strings.Split(spec, ','))
  }

  /** Once a prefix of the tokens fails, the whole list fails the same way. */
  lemma {:induction false} FailureStops(parts: seq<string>, k: nat)
    requires k <= |parts|
    requires ColumnsOf(parts[..k]).Failure?
    ensures ColumnsOf(parts) == ColumnsOf(parts[..k])
    decreases |parts| - k
  {
    if k < |parts| {
      assert parts[..k + 1][..k] == parts[..k];
      FailureStops(parts, k + 1);
    } else {
      assert parts[..k] == parts;
    }
  }

  /** The body of the parsing loops: the columns of one token. */
  method ParseToken(part: string) returns (r: Result<seq<int>, ColumnError>)
    ensures r == TokenColumns(part)
  {
    if '-' in part {
      r := ParseRange(part);
    } else {
      var n := Utils.ExcelColumnToNumber(Strings.Strip(part));
      r := Success([n]);
    }
  }

  /** The range branch of the loop body, for a token holding '-'. */
  method ParseRange(part: string) returns (r: Result<seq<int>, ColumnError>)
    requires '-' in part
    ensures r == RangeColumns(part)
  {
    var pieces := Strings.Split(part, '-');
    if |pieces| != 2 {
      return Failure(UnpackError(part));
    }
    var startNum := Utils.ExcelColumnToNumber(Strings.Strip(pieces[0]));
    var endNum := Utils.ExcelColumnToNumber(Strings.Strip(pieces[1]));
    r := Success(Range(startNum, endNum + 1));
  }

  /**
   * The parsing loop of `_parse_column_input` (lines 51-60) and of batch mode (lines 100-118):
   * split on ',', then append one column or extend by a range per token.
   */
  method ParseColumnSpec(spec: string) returns (r: Result<seq<int>, ColumnError>)
    ensures r == SpecColumns(spec)
  {
    var parts := Strings.Split(spec, ',');
    var cols: seq<int> := [];
    for i := 0 to |parts|
      invariant ColumnsOf(parts[..i]) == Success(cols)
    {
      assert parts[..i + 1][..i] == parts[..i];
      var more := ParseToken(parts[i]);
      if more.Failure? {
        r := more;
        FailureStops(parts, i + 1);
        return;
      }
      cols := cols + more.value;
    }
    assert parts[..|parts|] == parts;
    r := Success(cols);
  }

  /** Tokens are handled in order: the columns of two token lists are those of each, concatenated. */
  lemma {:induction false} ColumnsOfAppend(p: seq<string>, q: seq<string>)
    ensures ColumnsOf(p + q) == Concat(ColumnsOf(p), ColumnsOf(q))
    decreases |q|
  {
    if q == [] {
      assert p + q == p;
      ConcatEmpty(ColumnsOf(p));
    } else {
      var q' := q[..|q| - 1];
      var last := TokenColumns(q[|q| - 1]);
      assert (p + q)[..|p + q| - 1] == p + q';
      assert (p + q)[|p + q| - 1] == q[|q| - 1];
      ColumnsOfAppend(p, q');
      ConcatAssociative(ColumnsOf(p), ColumnsOf(q'), last);
    }
  }

  lemma ConcatEmpty(a: Result<seq<int>, ColumnError>)
    ensures Concat(a, Success([])) == a
  {
    if a.Success? {
      assert a.value + [] == a.value;
    }
  }

  lemma ConcatAssociative(a: Result<seq<int>, ColumnError>, b: Result<seq<int>, ColumnError>,
                          c: Result<seq<int>, ColumnError>)
    ensures Concat(Concat(a, b), c) == Concat(a, Concat(b, c))
  {
    if a.Success? && b.Success? && c.Success? {
      assert (a.value + b.value) + c.value == a.value + (b.value + c.value);
    }
  }

  /**
   * Nothing is sorted or de-duplicated: the columns of "s1,s2" are those of s1 followed by
   * those of s2.
   */
  lemma ColumnSpecConcat(s1: string, s2: string)
    ensures SpecColumns(s1 + "," + s2) == Concat(SpecColumns(s1), SpecColumns(s2))
  {
    Strings.SplitAround(s1, ',', s2);
    ColumnsOfAppend(Strings.Split(s1, ','), Strings.Split(s2, ','));
  }

  /** "x-y" with no '-' in x or y splits into exactly x and y. */
  lemma SplitPair(x: string, y: string)
    requires '-' !in x && '-' !in y
    ensures Strings.Split(x + "-" + y, '-') == [x, y]
  {
    Strings.SplitAround(x, '-', y);
    Strings.SplitNoSep(x, '-');
    Strings.SplitNoSep(y, '-');
  }

  /**
   * A range token "X-Y" (surrounding white space stripped) gives exactly index(X)..index(Y)
   * ascending, and nothing at all when index(X) > index(Y).
   */
  lemma RangeToken(x: string, y: string)
    requires '-' !in x && '-' !in y
    ensures var a, b := ColumnNumber(Strings.Strip(x)), ColumnNumber(Strings.Strip(y));
            && TokenColumns(x + "-" + y).Success?
            && var cols := TokenColumns(x + "-" + y).value;
            && (a <= b ==> |cols| == b - a + 1 && forall i :: 0 <= i < |cols| ==> cols[i] == a + i)
            && (a > b ==> cols == [])
  {
    var part := x + "-" + y;
    assert part[|x|] == '-';
    SplitPair(x, y);
    var a, b := ColumnNumber(Strings.Strip(x)), ColumnNumber(Strings.Strip(y));
    assert TokenColumns(part) == RangeColumns(part) == Success(Range(a, b + 1));
  }

  /** A token without '-' contributes the one column its letters name. */
  lemma SingleToken(part: string)
    requires '-' !in part
    ensures TokenColumns(part) == Success([ColumnNumber(Strings.Strip(part))])
  {
  }

  /** A spec without ',' is one token. */
  lemma OneToken(part: string)
    requires ',' !in part
    ensures SpecColumns(part) == TokenColumns(part)
  {
    Strings.SplitNoSep(part, ',');
    assert [part][..0] == [];
    var t := TokenColumns(part);
    assert SpecColumns(part) == Concat(Success([]), t);
    if t.Success? {
      assert [] + t.value == t.value;
    }
  }

  /** One upper-case letter, as a token, names that letter's column. */
  lemma LetterColumn(s: string)
    requires |s| == 1 && Utils.IsUpperLetter(s[0])
    ensures ColumnNumber(Strings.Strip(s)) == Utils.LetterValue(s[0])
  {
    assert !Strings.IsSpace(s[0]);
    Strings.StripNoSpace(s);
    var u := Strings.Upper(s);
    assert u[0] == s[0];
    assert u == s;
    assert u[..0] == [];
    assert Utils.ColumnValue(u) == Utils.ColumnValue([]) * 26 + Utils.LetterValue(s[0]);
  }

  /** The spec made of one upper-case letter is that letter's column. */
  lemma OneLetterSpec(s: string)
    requires |s| == 1 && Utils.IsUpperLetter(s[0])
    ensures SpecColumns(s) == Success([Utils.LetterValue(s[0])])
  {
    OneToken(s);
    SingleToken(s);
    LetterColumn(s);
  }

  /** The token "X-Y" of two upper-case letters. */
  lemma LetterRangeToken(x: string, y: string)
    requires |x| == 1 && Utils.IsUpperLetter(x[0]) && |y| == 1 && Utils.IsUpperLetter(y[0])
    ensures TokenColumns(x + "-" + y) == Success(Range(Utils.LetterValue(x[0]), Utils.LetterValue(y[0]) + 1))
  {
    var part := x + "-" + y;
    assert part[1] == '-';
    SplitPair(x, y);
    LetterColumn(x);
    LetterColumn(y);
    assert TokenColumns(part) == RangeColumns(part);
  }

  /** The spec "X-Y" of two upper-case letters. */
  lemma LetterRangeSpec(x: string, y: string)
    requires |x| == 1 && Utils.IsUpperLetter(x[0]) && |y| == 1 && Utils.IsUpperLetter(y[0])
    ensures var a, b := Utils.LetterValue(x[0]), Utils.LetterValue(y[0]);
            SpecColumns(x + "-" + y) == Success(Range(a, b + 1))
  {
    var part := x + "-" + y;
    assert forall i | 0 <= i < |part| :: part[i] != ',';
    OneToken(part);
    LetterRangeToken(x, y);
  }

  /** "Y,Z-W" of upper-case letters. */
  lemma LetterThenRange(y: string, z: string, w: string)
    requires |y| == 1 && Utils.IsUpperLetter(y[0])
    requires |z| == 1 && Utils.IsUpperLetter(z[0]) && |w| == 1 && Utils.IsUpperLetter(w[0])
    ensures var b, c, d := Utils.LetterValue(y[0]), Utils.LetterValue(z[0]), Utils.LetterValue(w[0]);
            SpecColumns(y + "," + (z + "-" + w)) == Success([b] + Range(c, d + 1))
  {
    ColumnSpecConcat(y, z + "-" + w);
    OneLetterSpec(y);
    LetterRangeSpec(z, w);
  }

  /** "X,Y,Z-W" of upper-case letters. */
  lemma ThreeTokens(x: string, y: string, z: string, w: string)
    requires |x| == 1 && Utils.IsUpperLetter(x[0]) && |y| == 1 && Utils.IsUpperLetter(y[0])
    requires |z| == 1 && Utils.IsUpperLetter(z[0]) && |w| == 1 && Utils.IsUpperLetter(w[0])
    ensures var a, b, c, d := Utils.LetterValue(x[0]), Utils.LetterValue(y[0]),
                              Utils.LetterValue(z[0]), Utils.LetterValue(w[0]);
            SpecColumns(x + "," + (y + "," + (z + "-" + w))) == Success([a] + ([b] + Range(c, d + 1)))
  {
    ColumnSpecConcat(x, y + "," + (z + "-" + w));
    OneLetterSpec(x);
    LetterThenRange(y, z, w);
  }

  /** The help text's source example: "A,B,C-E" is columns 1 to 5. */
  lemma HelpSourceExample(src: string)
    requires src == "A,B,C-E"
    ensures SpecColumns(src) == Success([1, 2, 3, 4, 5])
  {
    assert src == "A" + "," + ("B" + "," + ("C" + "-" + "E"));
    ThreeTokens("A", "B", "C", "E");
    ExampleColumns(1, 2, 3, 5);
  }

  /** The help text's target example: "F,G,H-J" is columns 6 to 10. */
  lemma HelpTargetExample(tgt: string)
    requires tgt == "F,G,H-J"
    ensures SpecColumns(tgt) == Success([6, 7, 8, 9, 10])
  {
    assert tgt == "F" + "," + ("G" + "," + ("H" + "-" + "J"));
    ThreeTokens("F", "G", "H", "J");
    ExampleColumns(6, 7, 8, 10);
  }

  /** Two single columns followed by a range of three, as the help text's examples have them. */
  lemma ExampleColumns(a: int, b: int, c: int, d: int)
    requires b == a + 1 && c == a + 2 && d == a + 4
    ensures [a] + ([b] + Range(c, d + 1)) == [a, a + 1, a + 2, a + 3, a + 4]
  {
    var r := Range(c, d + 1);
    assert r == [c, c + 1, c + 2];
  }

  /** A reversed range adds no column: "E-C" is the empty list. */
  lemma ReversedRangeExample(s: string)
    requires s == "E-C"
    ensures SpecColumns(s) == Success([])
  {
    assert s == "E" + "-" + "C";
    LetterRangeSpec("E", "C");
  }

  /** "x-y-z" does not unpack into two parts, whatever x, y and z are. */
  lemma TwoDashes(x: string, y: string, z: string)
    requires '-' !in x && '-' !in y && '-' !in z
    ensures TokenColumns(x + "-" + y + "-" + z) == Failure(UnpackError(x + "-" + y + "-" + z))
  {
    var part := x + "-" + y + "-" + z;
    assert part == x + "-" + (y + "-" + z);
    assert part[|x|] == '-';
    Strings.SplitAround(x, '-', y + "-" + z);
    Strings.SplitNoSep(x, '-');
    SplitPair(y, z);
  }

  /** "A-B-C" is rejected. */
  lemma TwoDashesExample(s: string)
    requires s == "A-B-C"
    ensures SpecColumns(s) == Failure(UnpackError(s))
  {
    assert s == "A" + "-" + "B" + "-" + "C";
    TwoDashes("A", "B", "C");
    OneToken(s);
  }

  /**
   * One round of `_parse_column_input`: without a (non-empty) prompt no columns; otherwise the
   * typed text, stripped and upper-cased, is parsed (a `Failure` is what makes the prompt repeat).
   */
  method ParseColumnInput(prompt: Option<string>, typed: string) returns (r: Result<seq<int>, ColumnError>)
    ensures !Truthy(prompt) ==> r == Success([])
    ensures Truthy(prompt) ==> r == SpecColumns(Strings.Upper(Strings.Strip(typed)))
  {
    if !Truthy(prompt) {
      return Success([]);
    }
    r := ParseColumnSpec(Strings.Upper(Strings.Strip(typed)));
  }

  // ---------------------------------------------------------------------------
  // Rows and parameters

  /** `_get_row_range` accepts a start and an end exactly when start <= end. */
  function AcceptRowRange(start: int, end: int): (r: Option<(int, int)>)
    ensures r.Some? <==> start <= end
    ensures r.Some? ==> r.value == (start, end)
  {
    if start <= end then Some((start, end)) else None
  }

  /** The command line as argparse leaves it: absent options are `None`. */
  datatype CliArgs = CliArgs(
    batch: bool,
    input: Option<string>,
    output: Option<string>,
    sourceCols: Option<string>,
    targetCols: Option<string>,
    rowStart: Option<int>,
    rowEnd: Option<int>,
    apiKey: Option<string>)

  /** `TranslationParams`. */
  datatype TranslationParams = TranslationParams(
    batchMode: bool,
    inputPath: string,
    outputPath: string,
    sourceCols: seq<int>,
    targetCols: seq<int>,
    rowRange: (int, int),
    apiKey: Option<string>)

  /** The `parser.error` exits of batch mode, one per check. */
  datatype CliError =
    | MissingParameters
    | InputNotFound(path: string)
    | InvalidColumns(cause: ColumnError)
    | ColumnCountMismatch
    | InvalidRowRange

  /** The `all([...])` test: the strings are present and non-empty, the rows present. */
  predicate BatchArgsPresent(a: CliArgs) {
    Truthy(a.input) && Truthy(a.sourceCols) && Truthy(a.targetCols) && a.rowStart.Some? && a.rowEnd.Some?
  }

  /** The columns both specs parse to, when the earlier checks have passed. */
  predicate ColumnsParse(a: CliArgs)
    requires BatchArgsPresent(a)
  {
    SpecColumns(a.sourceCols.value).Success? && SpecColumns(a.targetCols.value).Success?
  }

  /**
   * `parse_args`: outside batch mode an empty parameter set; in batch mode the checks in the
   * source's order, each with its own error, and on success parameters whose column lists have
   * equal length, whose rows are ordered and whose output path defaults to the generated one.
   */
  method ParseArgs(args: CliArgs, inputExists: bool) returns (r: Result<TranslationParams, CliError>)
    ensures !args.batch ==> r == Success(TranslationParams(false, "", "", [], [], (0, 0), args.apiKey))
    ensures r == Failure(MissingParameters) <==> args.batch && !BatchArgsPresent(args)
    ensures r.Failure? && r.error.InputNotFound? <==> args.batch && BatchArgsPresent(args) && !inputExists
    ensures r.Failure? && r.error.InvalidColumns? <==>
              args.batch && BatchArgsPresent(args) && inputExists && !ColumnsParse(args)
    ensures r.Failure? && r.error.InvalidColumns? ==>
              var src := SpecColumns(args.sourceCols.value);
              r.error.cause == if src.Failure? then src.error else SpecColumns(args.targetCols.value).error
    ensures r == Failure(ColumnCountMismatch) <==>
              args.batch && BatchArgsPresent(args) && inputExists && ColumnsParse(args)
              && |SpecColumns(args.sourceCols.value).value| != |SpecColumns(args.targetCols.value).value|
    ensures r == Failure(InvalidRowRange) <==>
              args.batch && BatchArgsPresent(args) && inputExists && ColumnsParse(args)
              && |SpecColumns(args.sourceCols.value).value| == |SpecColumns(args.targetCols.value).value|
              && AcceptRowRange(args.rowStart.value, args.rowEnd.value).None?
    ensures r.Success? && args.batch ==>
              && BatchArgsPresent(args) && inputExists
              && r.value.batchMode
              && r.value.inputPath == args.input.value
              && Success(r.value.sourceCols) == SpecColumns(args.sourceCols.value)
              && Success(r.value.targetCols) == SpecColumns(args.targetCols.value)
              && |r.value.sourceCols| == |r.value.targetCols|
              && r.value.rowRange == (args.rowStart.value, args.rowEnd.value)
              && r.value.rowRange.0 <= r.value.rowRange.1
              && r.value.outputPath == (if Truthy(args.output) then args.output.value
                                        else Paths.DefaultOutputPath(args.input.value))
              && r.value.apiKey == args.apiKey
  {
    if !args.batch {
      return Success(TranslationParams(false, "", "", [], [], (0, 0), args.apiKey));
    }
    if !BatchArgsPresent(args) {
      return Failure(MissingParameters);
    }
    if !inputExists {
      return Failure(InputNotFound(args.input.value));
    }
    var sourceCols := ParseColumnSpec(args.sourceCols.value);
    if sourceCols.Failure? {
      return Failure(InvalidColumns(sourceCols.error));
    }
    var targetCols := ParseColumnSpec(args.targetCols.value);
    if targetCols.Failure? {
      return Failure(InvalidColumns(targetCols.error));
    }
    if |sourceCols.value| != |targetCols.value| {
      return Failure(ColumnCountMismatch);
    }
    if args.rowStart.value > args.rowEnd.value {
      return Failure(InvalidRowRange);
    }
    var outputPath := if Truthy(args.output) then args.output.value else Paths.DefaultOutputPath(args.input.value);
    r := Success(TranslationParams(true, args.input.value, outputPath, sourceCols.value, targetCols.value,
                                   (args.rowStart.value, args.rowEnd.value), args.apiKey));
  }
}
