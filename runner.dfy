/**
 * translate_excel.py, lines 36-80: for every (source, target) column pair of `zip`, for every
 * row from the first to the last, count the cell, read the source cell and, when it holds text
 * the translator turns into a string, write that string into the target cell and record it in
 * the history. The translator, the clock and the progress display are abstracted.
 */
module Runner {
  import opened Wrappers
  import Strings
  import Paths
  import DeepL
  import History
  import Excel

  /** The exceptions that end `main` early: a refused cell, or one raised by the translator. */
  datatype RunError = CellFailure(cell: Excel.CellError) | TranslatorFailure(cause: DeepL.Error)

  /**
   * What the loop depends on besides the sheet: the result of `translator.translate` for each
   * text, the timestamp of the n-th history entry, the input path and the sheet's title.
   */
  datatype Context = Context(
    translate: string -> DeepL.TranslateOutcome,
    clock: nat -> string,
    inputPath: string,
    sheetName: string)

  /** The state the loop changes: the cells, the history, the counter and how it stopped. */
  datatype RunState = RunState(cells: Excel.Cells, history: seq<History.Entry>, processed: nat, failure: Option<RunError>)

  /** One pass of the inner loop body. */
  datatype Visit = Visit(row: int, src: int, dst: int)

  /** `zip(source_cols, target_cols)`: as long as the shorter list. */
  function Zip(a: seq<int>, b: seq<int>): (z: seq<(int, int)>)
    ensures |z| == if |a| <= |b| then |a| else |b|
    ensures forall i :: 0 <= i < |z| ==> z[i] == (a[i], b[i])
  {
    seq(if |a| <= |b| then |a| else |b|, i requires 0 <= i < |a| && i < |b| => (a[i], b[i]))
  }

  /** The inner loop of one pair: rows `lo`, `lo + 1`, ... below `hi`, in that order. */
  function RowVisits(src: int, dst: int, lo: int, hi: int): (vs: seq<Visit>)
    ensures |vs| == if lo < hi then hi - lo else 0
    ensures forall i :: 0 <= i < |vs| ==> vs[i] == Visit(lo + i, src, dst)
  {
    seq(if lo < hi then hi - lo else 0, i => Visit(lo + i, src, dst))
  }

  /** Both loops: the pairs in order, each over the rows `rowStart` to `rowEnd`. */
  function Visits(pairs: seq<(int, int)>, rowStart: int, rowEnd: int): (vs: seq<Visit>)
    ensures (forall i :: 0 <= i < |pairs| ==> pairs[i].0 >= 0) ==> SourcesNonNegative(vs)
  {
    if pairs == [] then []
    else
      var last := pairs[|pairs| - 1];
      Visits(pairs[..|pairs| - 1], rowStart, rowEnd) + RowVisits(last.0, last.1, rowStart, rowEnd + 1)
  }

  /** The visits that compute the source cell's address: its column must not be negative. */
  predicate SourcesNonNegative(vs: seq<Visit>) {
    forall i :: 0 <= i < |vs| ==> vs[i].src >= 0
  }

  /** Pairs whose source column is not negative. */
  predicate PairsNonNegative(pairs: seq<(int, int)>) {
    forall i :: 0 <= i < |pairs| ==> pairs[i].0 >= 0
  }

  /** The history entry for a translated cell. */
  function EntryFor(ctx: Context, st: RunState, v: Visit, text: string, translated: string): History.Entry
    requires v.src >= 0 && v.dst >= 0
  {
    History.Entry(ctx.clock(|st.history|), Paths.Basename(ctx.inputPath), ctx.sheetName,
                  Excel.CellAddress(v.row, v.src), Excel.CellAddress(v.row, v.dst), text, translated)
  }

  /**
   * One pass of the loop body: count the cell; read it; on text, translate; on a result, write
   * the target cell and append an entry. An exception stops everything that follows.
   */
  function Step(ctx: Context, st: RunState, v: Visit): RunState
    requires v.src >= 0
  {
    if st.failure.Some? then st
    else
      var counted := st.(processed := st.processed + 1);
      match Excel.ReadCell(st.cells, v.row, v.src)
      case Failure(e) => counted.(failure := Some(CellFailure(e)))
      case Success(text) =>
        if text == "" then counted
        else
          match ctx.translate(text)
          case Raised(e) => counted.(failure := Some(TranslatorFailure(e)))
          case NoTranslation => counted
          case Translated(t) =>
            match Excel.WriteCell(st.cells, v.row, v.dst, t)
            case Failure(e) => counted.(failure := Some(CellFailure(e)))
            case Success(cells) =>
              RunState(cells, st.history + [EntryFor(ctx, st, v, text, t)], st.processed + 1, None)
  }

  /** The visits one after the other. */
  function RunVisits(ctx: Context, st: RunState, vs: seq<Visit>): RunState
    requires SourcesNonNegative(vs)
  {
    if vs == [] then st
    else Step(ctx, RunVisits(ctx, st, vs[..|vs| - 1]), vs[|vs| - 1])
  }

  /**
   * The body of the inner loop (lines 46-80) for one cell: `processed += 1`, the address of the
   * source cell, the read, the translation, the write and the history entry.
   */
  method VisitCell(ctx: Context, excel: Excel.ExcelHandler, history: History.TranslationHistory,
                   v: Visit, processed: nat)
    returns (processed': nat, failure: Option<RunError>)
    requires v.src >= 0 && ctx.sheetName == excel.sheetTitle
    modifies excel, history
    ensures RunState(excel.cells, history.history, processed', failure)
            == Step(ctx, RunState(old(excel.cells), old(history.history), processed, None), v)
  {
    processed' := processed + 1;
    failure := None;
    var currentCell := excel.GetCellAddress(v.row, v.src);
    var sourceText := excel.GetCellValue(v.row, v.src);
    if sourceText.Failure? {
      return processed', Some(CellFailure(sourceText.error));
    }
    if sourceText.value != "" {
      var translated := ctx.translate(sourceText.value);
      if translated.Raised? {
        return processed', Some(TranslatorFailure(translated.error));
      }
      if translated.Translated? {
        var written := excel.SetCellValue(v.row, v.dst, translated.text);
        if written.Fail? {
          return processed', Some(CellFailure(written.error));
        }
        var sourceCell := excel.GetCellAddress(v.row, v.src);
        var targetCell := excel.GetCellAddress(v.row, v.dst);
        history.AddEntry(sourceText.value, translated.text, Paths.Basename(ctx.inputPath), excel.GetSheetName(),
                         sourceCell, targetCell, ctx.clock(|history.history|));
      }
    }
  }

  /**
   * The inner loop of `main` for one (source, target) pair: the rows from `rowStart` to `rowEnd`,
   * stopping at the first exception; the rows after it would change nothing.
   */
  method TranslatePair(ctx: Context, excel: Excel.ExcelHandler, history: History.TranslationHistory,
                       src: int, dst: int, rowStart: int, rowEnd: int, processed: nat)
    returns (processed': nat, failure: Option<RunError>)
    requires src >= 0 && ctx.sheetName == excel.sheetTitle
    modifies excel, history
    ensures RunState(excel.cells, history.history, processed', failure)
            == RunVisits(ctx, RunState(old(excel.cells), old(history.history), processed, None),
                         RowVisits(src, dst, rowStart, rowEnd + 1))
  {
    ghost var st0 := RunState(excel.cells, history.history, processed, None);
    processed', failure := processed, None;
    var row := rowStart;
    while row <= rowEnd
      invariant row == rowStart || rowStart < row <= rowEnd + 1
      invariant failure.None?
      invariant RunState(excel.cells, history.history, processed', None)
                == RunVisits(ctx, st0, RowVisits(src, dst, rowStart, row))
      decreases rowEnd - row
    {
      processed', failure := VisitCell(ctx, excel, history, Visit(row, src, dst), processed');
      NextRow(ctx, st0, src, dst, rowStart, row);
      if failure.Some? {
        RestOfRows(ctx, st0, src, dst, rowStart, rowEnd, row, RunState(excel.cells, history.history, processed', failure));
        return;
      }
      row := row + 1;
    }
    assert RowVisits(src, dst, rowStart, row) == RowVisits(src, dst, rowStart, rowEnd + 1);
  }

  /**
   * The nested loops of `main`, from the zipped column pairs and the row range; `processed`
   * and the exception that ended the loop, if any, are returned.
   */
  method RunTranslation(sourceCols: seq<int>, targetCols: seq<int>, rowStart: int, rowEnd: int,
                        inputPath: string, excel: Excel.ExcelHandler, history: History.TranslationHistory,
                        translate: string -> DeepL.TranslateOutcome, clock: nat -> string)
    returns (processed: nat, failure: Option<RunError>)
    requires forall i :: 0 <= i < |sourceCols| ==> sourceCols[i] >= 0
    modifies excel, history
    ensures RunState(excel.cells, history.history, processed, failure)
            == RunVisits(Context(translate, clock, inputPath, excel.sheetTitle),
                         RunState(old(excel.cells), old(history.history), 0, None),
                         Visits(Zip(sourceCols, targetCols), rowStart, rowEnd))
  {
    var pairs := Zip(sourceCols, targetCols);
    var ctx := Context(translate, clock, inputPath, excel.sheetTitle);
    ghost var init := RunState(excel.cells, history.history, 0, None);
    processed, failure := 0, None;
    for p := 0 to |pairs|
      invariant failure.None?
      invariant RunState(excel.cells, history.history, processed, None)
                == RunVisits(ctx, init, Visits(pairs[..p], rowStart, rowEnd))
    {
      var (src, dst) := pairs[p];
      processed, failure := TranslatePair(ctx, excel, history, src, dst, rowStart, rowEnd, processed);
      NextPair(ctx, init, pairs, p, rowStart, rowEnd);
      if failure.Some? {
        RestOfPairs(ctx, init, pairs, p + 1, rowStart, rowEnd, RunState(excel.cells, history.history, processed, failure));
        return;
      }
    }
    assert pairs[..|pairs|] == pairs;
  }

  /** One more row of the inner loop. */
  lemma NextRow(ctx: Context, st: RunState, src: int, dst: int, rowStart: int, row: int)
    requires rowStart <= row && src >= 0
    ensures RunVisits(ctx, st, RowVisits(src, dst, rowStart, row + 1))
            == Step(ctx, RunVisits(ctx, st, RowVisits(src, dst, rowStart, row)), Visit(row, src, dst))
  {
    var after := RowVisits(src, dst, rowStart, row + 1);
    assert after[..|after| - 1] == RowVisits(src, dst, rowStart, row);
  }

  /** After an exception at `row`, the rest of the rows change nothing. */
  lemma RestOfRows(ctx: Context, st0: RunState, src: int, dst: int, rowStart: int, rowEnd: int, row: int, st: RunState)
    requires src >= 0 && rowStart <= row <= rowEnd && st.failure.Some?
    requires st == RunVisits(ctx, st0, RowVisits(src, dst, rowStart, row + 1))
    ensures st == RunVisits(ctx, st0, RowVisits(src, dst, rowStart, rowEnd + 1))
  {
    var done, rest := RowVisits(src, dst, rowStart, row + 1), RowVisits(src, dst, row + 1, rowEnd + 1);
    assert RowVisits(src, dst, rowStart, rowEnd + 1) == done + rest;
    RunVisitsAppend(ctx, st0, done, rest);
    FailureSticks(ctx, st, rest);
  }

  /** One more pair of the outer loop: its rows run from where the earlier pairs left off. */
  lemma NextPair(ctx: Context, init: RunState, pairs: seq<(int, int)>, p: nat, rowStart: int, rowEnd: int)
    requires p < |pairs| && PairsNonNegative(pairs)
    ensures RunVisits(ctx, init, Visits(pairs[..p + 1], rowStart, rowEnd))
            == RunVisits(ctx, RunVisits(ctx, init, Visits(pairs[..p], rowStart, rowEnd)),
                         RowVisits(pairs[p].0, pairs[p].1, rowStart, rowEnd + 1))
  {
    assert pairs[..p + 1][..p] == pairs[..p];
    var done, rows := Visits(pairs[..p], rowStart, rowEnd), RowVisits(pairs[p].0, pairs[p].1, rowStart, rowEnd + 1);
    assert Visits(pairs[..p + 1], rowStart, rowEnd) == done + rows;
    RunVisitsAppend(ctx, init, done, rows);
  }

  /** After an exception in the first `q` pairs, the remaining pairs change nothing. */
  lemma RestOfPairs(ctx: Context, init: RunState, pairs: seq<(int, int)>, q: nat, rowStart: int, rowEnd: int, st: RunState)
    requires q <= |pairs| && PairsNonNegative(pairs) && st.failure.Some?
    requires st == RunVisits(ctx, init, Visits(pairs[..q], rowStart, rowEnd))
    ensures st == RunVisits(ctx, init, Visits(pairs, rowStart, rowEnd))
  {
    var done := Visits(pairs[..q], rowStart, rowEnd);
    var all := Visits(pairs, rowStart, rowEnd);
    VisitsPrefix(pairs, q, |pairs|, rowStart, rowEnd);
    assert pairs[..|pairs|] == pairs;
    assert all == done + all[|done|..];
    RunVisitsAppend(ctx, init, done, all[|done|..]);
    FailureSticks(ctx, st, all[|done|..]);
  }

  /** Once an exception has been raised, the remaining visits change nothing. */
  lemma {:induction false} FailureSticks(ctx: Context, st: RunState, vs: seq<Visit>)
    requires st.failure.Some? && SourcesNonNegative(vs)
    ensures RunVisits(ctx, st, vs) == st
  {
    if vs != [] {
      FailureSticks(ctx, st, vs[..|vs| - 1]);
    }
  }

  /** Running `a + b` is running `a`, then `b` from where `a` left off. */
  lemma {:induction false} RunVisitsAppend(ctx: Context, st: RunState, a: seq<Visit>, b: seq<Visit>)
    requires SourcesNonNegative(a + b)
    ensures SourcesNonNegative(a) && SourcesNonNegative(b)
    ensures RunVisits(ctx, st, a + b) == RunVisits(ctx, RunVisits(ctx, st, a), b)
  {
    assert forall i :: 0 <= i < |a| ==> a[i] == (a + b)[i];
    assert forall i :: 0 <= i < |b| ==> b[i] == (a + b)[|a| + i];
    if b == [] {
      assert a + b == a;
    } else {
      var b' := b[..|b| - 1];
      assert (a + b)[..|a + b| - 1] == a + b';
      RunVisitsAppend(ctx, st, a, b');
    }
  }

  /** The visits of the first `q` pairs come first among those of the first `q'`. */
  lemma {:induction false} VisitsPrefix(pairs: seq<(int, int)>, q: nat, q': nat, rowStart: int, rowEnd: int)
    requires q <= q' <= |pairs|
    ensures var short, long := Visits(pairs[..q], rowStart, rowEnd), Visits(pairs[..q'], rowStart, rowEnd);
            |short| <= |long| && long[..|short|] == short
    decreases q' - q
  {
    if q < q' {
      VisitsPrefix(pairs, q, q' - 1, rowStart, rowEnd);
      assert pairs[..q'][..q' - 1] == pairs[..q' - 1];
    }
  }

  // ---------------------------------------------------------------------------
  // What a run does

  /** The number of rows `range(row_start, row_end + 1)` walks. */
  function RowCount(rowStart: int, rowEnd: int): nat {
    if rowStart <= rowEnd then rowEnd - rowStart + 1 else 0
  }

  /** The position `p * rows + i` of row `i` of pair `p`. */
  function Position(p: int, i: int, rows: int): int {
    p * rows + i
  }

  /** Every pair visits every row once: `len(pairs) * rows` visits. */
  lemma {:induction false} VisitsLength(pairs: seq<(int, int)>, rowStart: int, rowEnd: int)
    ensures |Visits(pairs, rowStart, rowEnd)| == |pairs| * RowCount(rowStart, rowEnd)
  {
    if pairs != [] {
      var pre := pairs[..|pairs| - 1];
      VisitsLength(pre, rowStart, rowEnd);
      var n := RowCount(rowStart, rowEnd);
      assert |pairs| * n == |pre| * n + n;
    }
  }

  /** Row `i` of pair `p` of a list of `m` pairs lies before the end of its visits. */
  lemma PositionBound(p: nat, i: nat, m: nat, n: nat)
    requires p < m && i < n
    ensures Position(p, i, n) < m * n
    ensures p + 1 < m ==> Position(p, i, n) < (m - 1) * n
  {
    assert Position(p, i, n) < (p + 1) * n;
    MulMonotone(p + 1, m, n);
    if p + 1 < m {
      MulMonotone(p + 1, m - 1, n);
    }
  }

  /**
   * The order of the loops: the outer one over the pairs, the inner one over the rows
   * ascending; the visit of row `rowStart + i` of pair `p` is at position `p * rows + i`.
   */
  lemma {:induction false} VisitOrder(pairs: seq<(int, int)>, rowStart: int, rowEnd: int)
    ensures var vs, n := Visits(pairs, rowStart, rowEnd), RowCount(rowStart, rowEnd);
            forall p, i :: 0 <= p < |pairs| && 0 <= i < n ==>
              Position(p, i, n) < |vs| && vs[Position(p, i, n)] == Visit(rowStart + i, pairs[p].0, pairs[p].1)
  {
    var n := RowCount(rowStart, rowEnd);
    if pairs != [] {
      var pre := pairs[..|pairs| - 1];
      var last := pairs[|pairs| - 1];
      VisitOrder(pre, rowStart, rowEnd);
      VisitsLength(pre, rowStart, rowEnd);
      var vs := Visits(pairs, rowStart, rowEnd);
      var head := Visits(pre, rowStart, rowEnd);
      var tail := RowVisits(last.0, last.1, rowStart, rowEnd + 1);
      assert vs == head + tail;
      forall p, i | 0 <= p < |pairs| && 0 <= i < n
        ensures Position(p, i, n) < |vs| && vs[Position(p, i, n)] == Visit(rowStart + i, pairs[p].0, pairs[p].1)
      {
        PositionBound(p, i, |pairs|, n);
        if p < |pre| {
          assert vs[Position(p, i, n)] == head[Position(p, i, n)];
          assert pairs[p] == pre[p];
        } else {
          assert Position(p, i, n) == |head| + i;
          assert vs[Position(p, i, n)] == tail[i];
        }
      }
    }
  }

  lemma MulMonotone(a: nat, b: nat, n: nat)
    requires a <= b
    ensures a * n <= b * n
  {
  }

  /**
   * `processed` counts every visited cell: it never exceeds the number of visits, and a run
   * that raises nothing counts them all.
   */
  lemma {:induction false} ProcessedCount(ctx: Context, st: RunState, vs: seq<Visit>)
    requires st.failure.None? && SourcesNonNegative(vs)
    ensures var f := RunVisits(ctx, st, vs);
            && st.processed <= f.processed <= st.processed + |vs|
            && (f.failure.None? ==> f.processed == st.processed + |vs|)
  {
    if vs != [] {
      ProcessedCount(ctx, st, vs[..|vs| - 1]);
    }
  }

  /**
   * A completed run over equal-length column lists walks (row_end - row_start + 1) cells per
   * source column: `processed` ends at that number times the number of source columns.
   */
  lemma CompletedRunCount(ctx: Context, cells: Excel.Cells, history: seq<History.Entry>,
                          sourceCols: seq<int>, targetCols: seq<int>, rowStart: int, rowEnd: int)
    requires |sourceCols| == |targetCols| && rowStart <= rowEnd
    requires forall i :: 0 <= i < |sourceCols| ==> sourceCols[i] >= 0
    ensures var f := RunVisits(ctx, RunState(cells, history, 0, None), Visits(Zip(sourceCols, targetCols), rowStart, rowEnd));
            f.failure.None? ==> f.processed == (rowEnd - rowStart + 1) * |sourceCols|
  {
    var pairs := Zip(sourceCols, targetCols);
    var vs := Visits(pairs, rowStart, rowEnd);
    var rows := rowEnd - rowStart + 1;
    VisitsLength(pairs, rowStart, rowEnd);
    assert |pairs| == |sourceCols| && RowCount(rowStart, rowEnd) == rows;
    assert |vs| == rows * |sourceCols| by {
      assert |pairs| * rows == rows * |pairs|;
    }
    ProcessedCount(ctx, RunState(cells, history, 0, None), vs);
  }

  /** The target cells of the visits. */
  function Targets(vs: seq<Visit>): set<(int, int)> {
    set i | 0 <= i < |vs| :: (vs[i].row, vs[i].dst)
  }

  /** Only target cells (row, dest_col) are ever written: every other cell keeps its value. */
  lemma {:induction false} OnlyTargetsWritten(ctx: Context, st: RunState, vs: seq<Visit>, k: (int, int))
    requires SourcesNonNegative(vs) && k !in Targets(vs)
    ensures var f := RunVisits(ctx, st, vs);
            (k in f.cells <==> k in st.cells) && (k in st.cells ==> f.cells[k] == st.cells[k])
  {
    if vs != [] {
      var pre := vs[..|vs| - 1];
      assert k !in Targets(pre) by {
        forall i | 0 <= i < |pre| ensures (pre[i].row, pre[i].dst) != k {
          assert pre[i] == vs[i];
        }
      }
      assert (vs[|vs| - 1].row, vs[|vs| - 1].dst) != k;
      OnlyTargetsWritten(ctx, st, pre, k);
    }
  }

  /**
   * What a history entry says about the visit that produced it: a non-empty source text the
   * translator turned into the entry's translation, the addresses of the visit's source and
   * target cells, the input's file and sheet, and the clock reading at the entry's position.
   */
  predicate EntryOfVisit(ctx: Context, v: Visit, e: History.Entry, j: nat)
    requires v.src >= 0
  {
    && e.timestamp == ctx.clock(j)
    && e.excelFile == Paths.Basename(ctx.inputPath)
    && e.sheetName == ctx.sheetName
    && e.sourceText != ""
    && ctx.translate(e.sourceText) == DeepL.Translated(e.translatedText)
    && v.dst >= 1
    && e.sourceCell == Excel.CellAddress(v.row, v.src)
    && e.targetCell == Excel.CellAddress(v.row, v.dst)
  }

  /** One visit appends nothing, or one entry of its own. */
  lemma StepHistory(ctx: Context, st: RunState, v: Visit)
    requires v.src >= 0
    ensures var f := Step(ctx, st, v);
            && |st.history| <= |f.history| <= |st.history| + 1
            && f.history[..|st.history|] == st.history
            && (|f.history| > |st.history| ==> EntryOfVisit(ctx, v, f.history[|st.history|], |st.history|))
  {
    var f := Step(ctx, st, v);
    if f.history != st.history {
      assert f.history[..|st.history|] == st.history;
    }
  }

  /**
   * The history only grows: the entries before the run stay as they were, and at most one
   * entry is added per visit.
   */
  lemma {:induction false} HistoryGrows(ctx: Context, st: RunState, vs: seq<Visit>)
    requires SourcesNonNegative(vs)
    ensures var f := RunVisits(ctx, st, vs);
            && |st.history| <= |f.history| <= |st.history| + |vs|
            && f.history[..|st.history|] == st.history
  {
    if vs != [] {
      var pre, v := vs[..|vs| - 1], vs[|vs| - 1];
      HistoryGrows(ctx, st, pre);
      var mid := RunVisits(ctx, st, pre);
      var h := Step(ctx, mid, v).history;
      assert RunVisits(ctx, st, vs).history == h;
      StepHistory(ctx, mid, v);
      assert h[..|st.history|] == h[..|mid.history|][..|st.history|];
    }
  }

  /** Each entry a run adds comes from one of its visits, and names that visit's cells. */
  lemma {:induction false} EntriesFromVisits(ctx: Context, st: RunState, vs: seq<Visit>)
    requires SourcesNonNegative(vs)
    ensures var f := RunVisits(ctx, st, vs);
            forall j :: |st.history| <= j < |f.history| ==>
              exists i :: 0 <= i < |vs| && EntryOfVisit(ctx, vs[i], f.history[j], j)
  {
    if vs != [] {
      var pre := vs[..|vs| - 1];
      var v := vs[|vs| - 1];
      EntriesFromVisits(ctx, st, pre);
      HistoryGrows(ctx, st, pre);
      var mid := RunVisits(ctx, st, pre);
      var f := Step(ctx, mid, v);
      assert RunVisits(ctx, st, vs) == f;
      StepHistory(ctx, mid, v);
      forall j | |st.history| <= j < |f.history|
        ensures exists i :: 0 <= i < |vs| && EntryOfVisit(ctx, vs[i], f.history[j], j)
      {
        if j < |mid.history| {
          EarlierEntry(ctx, pre, vs, mid.history, f.history, j);
        } else {
          assert j == |mid.history|;
          assert EntryOfVisit(ctx, vs[|vs| - 1], f.history[j], j);
        }
      }
    }
  }

  /** An entry kept from the earlier visits still comes from one of them. */
  lemma EarlierEntry(ctx: Context, pre: seq<Visit>, vs: seq<Visit>, h: seq<History.Entry>, h': seq<History.Entry>, j: nat)
    requires |vs| > 0 && pre == vs[..|vs| - 1] && SourcesNonNegative(vs) && SourcesNonNegative(pre)
    requires j < |h| <= |h'| && h'[..|h|] == h
    requires exists i :: 0 <= i < |pre| && EntryOfVisit(ctx, pre[i], h[j], j)
    ensures exists i :: 0 <= i < |vs| && EntryOfVisit(ctx, vs[i], h'[j], j)
  {
    var i :| 0 <= i < |pre| && EntryOfVisit(ctx, pre[i], h[j], j);
    assert vs[i] == pre[i];
    assert h'[j] == h[j];
  }

  /**
   * History entries appear in loop order: the entries of the first `k` visits stay first, and
   * every entry after them comes from one of the later visits.
   */
  lemma HistoryOrder(ctx: Context, st: RunState, vs: seq<Visit>, k: nat)
    requires SourcesNonNegative(vs) && k <= |vs|
    ensures SourcesNonNegative(vs[..k])
    ensures var mid, f := RunVisits(ctx, st, vs[..k]), RunVisits(ctx, st, vs);
            && |mid.history| <= |f.history| && f.history[..|mid.history|] == mid.history
            && forall j :: |mid.history| <= j < |f.history| ==>
                 exists i :: k <= i < |vs| && EntryOfVisit(ctx, vs[i], f.history[j], j)
  {
    var a, b := vs[..k], vs[k..];
    assert vs == a + b;
    RunVisitsAppend(ctx, st, a, b);
    var mid := RunVisits(ctx, st, a);
    var f := RunVisits(ctx, mid, b);
    HistoryGrows(ctx, mid, b);
    EntriesFromVisits(ctx, mid, b);
    forall j | |mid.history| <= j < |f.history|
      ensures exists i :: k <= i < |vs| && EntryOfVisit(ctx, vs[i], f.history[j], j)
    {
      var i :| 0 <= i < |b| && EntryOfVisit(ctx, b[i], f.history[j], j);
      assert vs[k + i] == b[i];
    }
  }

  /** An empty source cell, or a text without a translation, is counted and changes nothing else. */
  lemma SkippedCell(ctx: Context, st: RunState, v: Visit)
    requires v.src >= 0 && st.failure.None?
    requires Excel.ReadCell(st.cells, v.row, v.src).Success?
    requires var text := Excel.ReadCell(st.cells, v.row, v.src).value;
             text == "" || ctx.translate(text) == DeepL.NoTranslation
    ensures Step(ctx, st, v) == st.(processed := st.processed + 1)
  {
  }

  /**
   * A source text with translation t: the target cell becomes t and exactly one entry is
   * appended, naming the source and the target cell by their addresses.
   */
  lemma TranslatedCell(ctx: Context, st: RunState, v: Visit, text: string, t: string)
    requires v.src >= 0 && Excel.ValidCell(v.row, v.dst) && st.failure.None?
    requires Excel.ReadCell(st.cells, v.row, v.src) == Success(text) && text != ""
    requires ctx.translate(text) == DeepL.Translated(t)
    ensures var f := Step(ctx, st, v);
            && f.cells == st.cells[(v.row, v.dst) := t]
            && f.history == st.history + [History.Entry(ctx.clock(|st.history|), Paths.Basename(ctx.inputPath),
                                                        ctx.sheetName, Excel.CellAddress(v.row, v.src),
                                                        Excel.CellAddress(v.row, v.dst), text, t)]
            && f.processed == st.processed + 1 && f.failure.None?
  {
  }

  /**
   * A1 = "Hello", source column A, target column F, row 1, and a translator that gives
   * "こんにちは": afterwards F1 holds "こんにちは" and the history has the one entry A1 -> F1.
   */
  lemma HelloExample(ctx: Context, cells: Excel.Cells)
    requires cells == map[(1, 1) := "Hello"]
    requires ctx.translate("Hello") == DeepL.Translated("こんにちは")
    ensures var f := RunVisits(ctx, RunState(cells, [], 0, None), Visits(Zip([1], [6]), 1, 1));
            && (1, 6) in f.cells && f.cells[(1, 6)] == "こんにちは"
            && f.history == [History.Entry(ctx.clock(0), Paths.Basename(ctx.inputPath), ctx.sheetName,
                                           "A1", "F1", "Hello", "こんにちは")]
            && f.processed == 1 && f.failure.None?
  {
    var vs := Visits(Zip([1], [6]), 1, 1);
    assert Zip([1], [6]) == [(1, 6)];
    assert [(1, 6)][..0] == [];
    assert vs == [Visit(1, 1, 6)];
    assert vs[..0] == [];
    Excel.CellAddressExamples();
    var st := RunState(cells, [], 0, None);
    TranslatedCell(ctx, st, Visit(1, 1, 6), "Hello", "こんにちは");
  }
}
