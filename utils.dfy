/**
 * utils.py: the spreadsheet column codec (letters <-> 1-based index, bijective base 26),
 * the column range check, the unit choice of `format_time` and the progress bar string.
 */
module Utils {
  import opened Wrappers
  import Strings

  // ---------------------------------------------------------------------------
  // Column codec

  /** What `ord(c) - ord('A') + 1` gives; nothing checks that `c` is a letter. */
  function LetterValue(c: char): int {
    c as int - 'A' as int + 1
  }

  /** Horner evaluation in base 26 with digits A = 1 .. Z = 26 (empty string: 0). */
  function ColumnValue(s: string): int {
    if s == [] then 0 else ColumnValue(s[..|s| - 1]) * 26 + LetterValue(s[|s| - 1])
  }

  /** `excel_column_to_number`: upper-cases, then accumulates `result * 26 + digit` left to right. */
  method ExcelColumnToNumber(columnLetter: string) returns (result: int)
    ensures result == ColumnValue(Strings.Upper(columnLetter))
  {
    var letters := Strings.Upper(columnLetter);
    result := 0;
    for i := 0 to |letters|
      invariant result == ColumnValue(letters[..i])
    {
      assert letters[..i + 1][..i] == letters[..i];
      result := result * 26 + LetterValue(letters[i]);
    }
    assert letters[..|letters|] == letters;
  }

  /** The letter for a remainder 0 .. 25. */
  function LetterOf(d: int): char
    requires 0 <= d < 26
  {
    ('A' as int + d) as char
  }

  /** Bijective base 26: the last letter is `(n - 1) % 26`, the rest spells `(n - 1) / 26`. */
  function ColumnLetters(n: nat): string {
    if n == 0 then "" else ColumnLetters((n - 1) / 26) + [LetterOf((n - 1) % 26)]
  }

  /**
   * `number_to_excel_column`: repeats `divmod(n - 1, 26)`, prepending a letter, until `n` is 0.
   * The source loops forever on a negative number, hence the precondition.
   */
  method NumberToExcelColumn(columnNumber: int) returns (result: string)
    requires columnNumber >= 0
    ensures result == ColumnLetters(columnNumber)
  {
    result := "";
    var n := columnNumber;
    while n != 0
      invariant 0 <= n
      invariant ColumnLetters(n) + result == ColumnLetters(columnNumber)
      decreases n
    {
      var remainder := (n - 1) % 26;
      n := (n - 1) / 26;
      result := [LetterOf(remainder)] + result;
    }
  }

  predicate IsUpperLetter(c: char) {
    'A' <= c <= 'Z'
  }

  predicate IsColumnName(s: string) {
    forall i :: 0 <= i < |s| ==> IsUpperLetter(s[i])
  }

  /** `number_to_excel_column(n)` is made of 'A'..'Z' only, and is empty exactly for 0. */
  lemma {:induction false} ColumnLettersShape(n: nat)
    ensures IsColumnName(ColumnLetters(n))
    ensures ColumnLetters(n) == [] <==> n == 0
  {
    if n > 0 {
      ColumnLettersShape((n - 1) / 26);
    }
  }

  /** `upper()` leaves a name of 'A'..'Z' as it is. */
  lemma UpperKeepsColumnName(s: string)
    requires IsColumnName(s)
    ensures Strings.Upper(s) == s
  {
  }

  /**
   * Round trip: `excel_column_to_number(number_to_excel_column(n)) == n` for any n >= 0, both
   * through `upper()` and without it.
   */
  lemma NumberRoundTrip(n: nat)
    ensures ColumnValue(ColumnLetters(n)) == n
    ensures ColumnValue(Strings.Upper(ColumnLetters(n))) == n
  {
    LettersValue(n);
    ColumnLettersShape(n);
    UpperKeepsColumnName(ColumnLetters(n));
  }

  /** Reading back the letters of n gives n. */
  lemma {:induction false} LettersValue(n: nat)
    ensures ColumnValue(ColumnLetters(n)) == n
  {
    if n > 0 {
      LettersValue((n - 1) / 26);
      var s := ColumnLetters(n);
      assert s[..|s| - 1] == ColumnLetters((n - 1) / 26);
    }
  }

  /**
   * Round trip: `number_to_excel_column(excel_column_to_number(s)) == s` for a string of
   * 'A'..'Z'; its number is >= 1 unless it is empty.
   */
  lemma LettersRoundTrip(s: string)
    requires IsColumnName(s)
    ensures ColumnValue(s) >= 0 && (s != [] ==> ColumnValue(s) >= 1)
    ensures ColumnLetters(ColumnValue(s)) == s
    ensures ColumnValue(Strings.Upper(s)) == ColumnValue(s)
    ensures ColumnLetters(ColumnValue(Strings.Upper(s))) == s
  {
    NameValue(s);
    UpperKeepsColumnName(s);
  }

  /** A string of 'A'..'Z' is spelled back unchanged from its value. */
  lemma {:induction false} NameValue(s: string)
    requires IsColumnName(s)
    ensures ColumnValue(s) >= 0 && (s != [] ==> ColumnValue(s) >= 1)
    ensures ColumnLetters(ColumnValue(s)) == s
  {
    if s != [] {
      var p := s[..|s| - 1];
      NameValue(p);
      var v := ColumnValue(p);
      var d := LetterValue(s[|s| - 1]);
      assert 1 <= d <= 26;
      assert (v * 26 + d - 1) / 26 == v && (v * 26 + d - 1) % 26 == d - 1;
      assert LetterOf(d - 1) == s[|s| - 1];
      assert s == p + [s[|s| - 1]];
    }
  }

  /** Hence different column names have different numbers. */
  lemma ColumnValueInjective(s: string, t: string)
    requires IsColumnName(s) && IsColumnName(t)
    requires ColumnValue(s) == ColumnValue(t)
    ensures s == t
  {
    LettersRoundTrip(s);
    LettersRoundTrip(t);
  }

  /** Reading a string upper-cases it first, so a lower-case name has the value of the upper-case one. */
  lemma ColumnNumberIgnoresCase(s: string)
    ensures ColumnValue(Strings.Upper(s)) == ColumnValue(Strings.Upper(Strings.Upper(s)))
  {
    assert Strings.Upper(Strings.Upper(s)) == Strings.Upper(s);
  }

  /** "A" is 1, "Z" is 26, "AA" is 27; "" reads as 0 and 0 spells "". */
  lemma ColumnExamples()
    ensures ColumnValue("A") == 1 && ColumnValue("Z") == 26 && ColumnValue("AA") == 27
    ensures ColumnValue("") == 0 && ColumnLetters(0) == ""
    ensures ColumnLetters(1) == "A" && ColumnLetters(26) == "Z" && ColumnLetters(27) == "AA"
  {
    assert "AA"[..1] == "A";
    assert ColumnLetters(1) == [LetterOf(0)];
    assert ColumnLetters(26) == [LetterOf(25)];
    assert ColumnLetters(27) == ColumnLetters(1) + [LetterOf(0)];
  }

  /** No validation: characters other than letters give whatever `ord` arithmetic gives. */
  lemma UncheckedExamples()
    ensures ColumnValue("@") == 0 && ColumnValue("#") == -29
    ensures ColumnValue(Strings.Upper("a1")) == 11
  {
    assert Strings.Upper("a1") == "A1";
    assert "A1"[..1] == "A";
  }

  // ---------------------------------------------------------------------------
  // validate_column_range

  predicate InColumnRange(col: int, maxCol: int) {
    1 <= col <= maxCol
  }

  /**
   * `validate_column_range`: checks the columns in order and raises (here: `Fail` with the
   * offending column) at the first one outside 1..maxCol.
   */
  method ValidateColumnRange(columns: seq<int>, maxCol: int) returns (r: Outcome<int>)
    ensures r.Pass? <==> forall i :: 0 <= i < |columns| ==> InColumnRange(columns[i], maxCol)
    ensures r.Fail? ==> exists k :: 0 <= k < |columns| && columns[k] == r.error
                                   && !InColumnRange(columns[k], maxCol)
                                   && forall j :: 0 <= j < k ==> InColumnRange(columns[j], maxCol)
  {
    for i := 0 to |columns|
      invariant forall j :: 0 <= j < i ==> InColumnRange(columns[j], maxCol)
    {
      if columns[i] < 1 || columns[i] > maxCol {
        return Fail(columns[i]);
      }
    }
    return Pass;
  }

  // ---------------------------------------------------------------------------
  // format_time (the choice of unit; the number formatting is floating point)

  datatype TimeUnit = Seconds | Minutes | Hours

  /** Seconds in one unit. */
  function UnitLength(u: TimeUnit): real {
    match u
    case Seconds => 1.0
    case Minutes => 60.0
    case Hours => 3600.0
  }

  /** The word `format_time` appends after the number. */
  function UnitSuffix(u: TimeUnit): string {
    match u
    case Seconds => "秒"
    case Minutes => "分"
    case Hours => "時間"
  }

  /** A duration as `format_time` shows it, before rounding: an amount of one unit. */
  datatype TimeReading = TimeReading(amount: real, unit: TimeUnit)

  function Rank(u: TimeUnit): nat {
    match u
    case Seconds => 0
    case Minutes => 1
    case Hours => 2
  }

  /**
   * `format_time`: below 60 s in seconds, below 3600 s in minutes, otherwise in hours; the
   * amount shown, times the unit, is the duration, and it is at least 1 once a larger unit is chosen.
   */
  function FormatTime(seconds: real): (r: TimeReading)
    ensures r.amount * UnitLength(r.unit) == seconds
    ensures r.unit == Seconds <==> seconds < 60.0
    ensures r.unit == Minutes <==> 60.0 <= seconds < 3600.0
    ensures r.unit == Hours <==> 3600.0 <= seconds
    ensures r.unit == Minutes ==> 1.0 <= r.amount < 60.0
    ensures r.unit == Hours ==> 1.0 <= r.amount
  {
    if seconds < 60.0 then TimeReading(seconds, Seconds)
    else if seconds < 3600.0 then TimeReading(seconds / 60.0, Minutes)
    else TimeReading(seconds / 3600.0, Hours)
  }

  /** A longer duration never gets a smaller unit. */
  lemma FormatTimeMonotone(s: real, t: real)
    requires s <= t
    ensures Rank(FormatTime(s).unit) <= Rank(FormatTime(t).unit)
  {
  }

  // ---------------------------------------------------------------------------
  // format_progress_bar: the bar itself

  /** `c * n` in Python: empty for n <= 0. */
  function Repeat(c: char, n: int): (r: string)
    ensures |r| == if n <= 0 then 0 else n
    ensures forall i :: 0 <= i < |r| ==> r[i] == c
  {
    if n <= 0 then "" else seq(n, i => c)
  }

  /** `int(width * progress // 100)`, in exact arithmetic. */
  function FilledCells(width: int, progress: real): int {
    (width as real * progress / 100.0).Floor
  }

  /** `'=' * filled + '>' + '-' * (width - filled - 1)`. */
  function ProgressBar(filled: int, width: int): string {
    Repeat('=', filled) + ">" + Repeat('-', width - filled - 1)
  }

  /** For progress 0..100 the filled part lies in 0..width, and fills it exactly at 100. */
  lemma FilledCellsBounds(width: nat, progress: real)
    requires 0.0 <= progress <= 100.0
    ensures 0 <= FilledCells(width, progress) <= width
    ensures width > 0 ==> (FilledCells(width, progress) == width <==> progress == 100.0)
  {
    var x := width as real * progress / 100.0;
    assert 0.0 <= x <= width as real by {
      assert width as real * progress <= width as real * 100.0;
    }
    if width > 0 && progress < 100.0 {
      assert width as real * progress < width as real * 100.0;
      assert x < width as real;
    }
  }

  /**
   * While 0 <= filled < width the bar is `filled` '=', one '>', and '-' up to exactly `width`
   * characters.
   */
  lemma ProgressBarShape(filled: int, width: int)
    requires 0 <= filled < width
    ensures var bar := ProgressBar(filled, width);
            && |bar| == width
            && (forall i :: 0 <= i < filled ==> bar[i] == '=')
            && bar[filled] == '>'
            && (forall i :: filled < i < width ==> bar[i] == '-')
  {
    var bar := ProgressBar(filled, width);
    assert forall i :: filled < i < width ==> bar[i] == Repeat('-', width - filled - 1)[i - filled - 1];
  }

  /** At 100 % the bar is `width` '=' and a '>': one character longer than `width`. */
  lemma FullProgressBar(width: nat)
    ensures var bar := ProgressBar(FilledCells(width, 100.0), width);
            |bar| == width + 1 && bar[width] == '>'
            && forall i :: 0 <= i < width ==> bar[i] == '='
  {
    assert FilledCells(width, 100.0) == width by {
      assert width as real * 100.0 / 100.0 == width as real;
    }
  }
}
