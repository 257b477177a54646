/**
 * translation_history.py: an append-only list of translation records, loaded once from a JSON
 * file. The file itself is abstracted: what `_load_history` finds is a parameter, and writing
 * or removing the file changes nothing the model keeps.
 */
module History {
  import opened Wrappers

  /** One record of `add_entry`; the timestamp is the caller's clock reading. */
  datatype Entry = Entry(
    timestamp: string,
    excelFile: string,
    sheetName: string,
    sourceCell: string,
    targetCell: string,
    sourceText: string,
    translatedText: string)

  /** The keys of every record, as written to the JSON file. */
  const EntryKeys: set<string> :=
    {"timestamp", "excel_file", "sheet_name", "source_cell", "target_cell", "source_text", "translated_text"}

  /** The dictionary `add_entry` builds. */
  function Record(e: Entry): (m: map<string, string>)
    ensures m.Keys == EntryKeys
  {
    map["timestamp" := e.timestamp, "excel_file" := e.excelFile, "sheet_name" := e.sheetName,
        "source_cell" := e.sourceCell, "target_cell" := e.targetCell,
        "source_text" := e.sourceText, "translated_text" := e.translatedText]
  }

  /** Reading a record back, when it has every key. */
  function FromRecord(m: map<string, string>): (r: Option<Entry>)
    ensures r.Some? <==> EntryKeys <= m.Keys
  {
    if EntryKeys <= m.Keys then
      Some(Entry(m["timestamp"], m["excel_file"], m["sheet_name"], m["source_cell"],
                 m["target_cell"], m["source_text"], m["translated_text"]))
    else None
  }

  /** A record holds exactly its seven fields under their own keys: nothing is lost or mixed up. */
  lemma RecordRoundTrip(e: Entry)
    ensures FromRecord(Record(e)) == Some(e)
  {
    var m := Record(e);
    assert m["timestamp"] == e.timestamp && m["excel_file"] == e.excelFile;
    assert m["sheet_name"] == e.sheetName && m["source_cell"] == e.sourceCell;
    assert m["target_cell"] == e.targetCell && m["source_text"] == e.sourceText;
    assert m["translated_text"] == e.translatedText;
  }

  /** What `_load_history` finds: no file, a file that does not parse, or a saved list. */
  datatype HistoryFile = Missing | Unparsable | Saved(entries: seq<Entry>)

  /** `_load_history`: the saved list, or a fresh empty history. */
  function LoadHistory(f: HistoryFile): (r: seq<Entry>)
    ensures f.Saved? ==> r == f.entries
    ensures !f.Saved? ==> r == []
  {
    match f
    case Saved(entries) => entries
    case _ => []
  }

  /** Python's `h[start:]`, a negative start counting from the end. */
  function SliceFrom(h: seq<Entry>, start: int): (r: seq<Entry>)
    ensures |r| <= |h| && r == h[|h| - |r|..]
  {
    if start < 0 then (if -start >= |h| then h else h[|h| + start..])
    else if start >= |h| then []
    else h[start..]
  }

  /** `get_recent_entries(limit)`: the whole list for `None`, else `history[-limit:]`. */
  function Recent(h: seq<Entry>, limit: Option<int>): seq<Entry> {
    if limit.None? then h else SliceFrom(h, -limit.value)
  }

  /**
   * The recent entries are always a suffix of the history, in order: all of it for `None`, for
   * 0 and for a limit beyond its length; the last `limit` entries for 0 < limit <= length; and
   * for a negative limit all but the first `-limit`.
   */
  lemma RecentEntries(h: seq<Entry>, limit: Option<int>)
    ensures var r := Recent(h, limit);
            && |r| <= |h| && r == h[|h| - |r|..]
            && (limit.None? ==> r == h)
            && (limit == Some(0) ==> r == h)
            && (limit.Some? && 0 < limit.value <= |h| ==> |r| == limit.value && r == h[|h| - limit.value..])
            && (limit.Some? && limit.value > |h| ==> r == h)
            && (limit.Some? && limit.value < 0 ==> r == if -limit.value >= |h| then [] else h[-limit.value..])
  {
    if limit == Some(0) {
      assert h[0..] == h;
    }
  }

  /** `TranslationHistory`: the file name and the list kept in memory. */
  class TranslationHistory {
    const historyFile: string
    var history: seq<Entry>

    /** `__init__`: the list is whatever `_load_history` finds in the file. */
    constructor (historyFile: string, found: HistoryFile)
      ensures this.historyFile == historyFile && history == LoadHistory(found)
    {
      this.historyFile := historyFile;
      history := LoadHistory(found);
    }

    /** `add_entry`: one record more at the end, built from the arguments; nothing else changes. */
    method AddEntry(sourceText: string, translatedText: string, excelFile: string, sheetName: string,
                    sourceCell: string, targetCell: string, timestamp: string)
      modifies this
      ensures history == old(history) + [Entry(timestamp, excelFile, sheetName, sourceCell, targetCell,
                                               sourceText, translatedText)]
    {
      var entry := Entry(timestamp, excelFile, sheetName, sourceCell, targetCell, sourceText, translatedText);
      history := history + [entry];
    }

    /** `get_recent_entries`: reads the list, changes nothing. */
    method GetRecentEntries(limit: Option<int>) returns (r: seq<Entry>)
      ensures r == Recent(history, limit)
    {
      if limit.None? {
        return history;
      }
      r := SliceFrom(history, -limit.value);
    }

    /** `clear_history`: the list is empty afterwards. */
    method ClearHistory()
      modifies this
      ensures history == []
    {
      history := [];
    }
  }

  /** Appending grows the list by one and keeps every earlier record where it was. */
  lemma AppendKeepsEarlier(h: seq<Entry>, e: Entry)
    ensures |h + [e]| == |h| + 1
    ensures (h + [e])[..|h|] == h && (h + [e])[|h|] == e
    ensures Recent(h + [e], Some(1)) == [e]
  {
    assert (h + [e])[..|h|] == h;
  }
}
