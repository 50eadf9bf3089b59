/** Tabular export and import: the CSV export of the whole table, the CSV
    import that maps header names to columns, and the choice between CSV and
    spreadsheet by file extension. The CSV text format itself (quoting,
    escaping, encoding) is the csv module's business and is not modelled: a
    file is its sequence of rows of cells. */
module Transfer {
  import opened Columns
  import opened Store
  import opened Strings

  /** What export_csv hands to the CSV writer: a header row, then the data rows. */
  datatype Sheet = Sheet(header: seq<string>, rows: seq<seq<Value>>)

  /** A listed record as one written row: the id, then the data cells. */
  function ExportRow(r: Record): seq<Value> {
    [Int(r.id)] + r.cells
  }

  /** `export_csv`: fails with "Nenhum registro" on an empty table; otherwise the
      header is every column name, `id` included, and there is one row per
      record, in listing order (newest first). */
  function ExportCsv(rs: seq<Record>): (out: Result<Sheet>)
    ensures out.Err? <==> rs == []
    ensures out.Err? ==> out.msg == "Nenhum registro"
    ensures out.Ok? ==> out.value.header == ColumnNames && |out.value.rows| == |rs|
    ensures out.Ok? ==> forall k :: 0 <= k < |rs| ==> out.value.rows[k] == ExportRow(rs[|rs| - 1 - k])
  {
    ListingUnfiltered(rs);
    var listed := Listing(rs, "");
    if listed == [] then Err("Nenhum registro")
    else Ok(Sheet(ColumnNames, seq(|listed|, k requires 0 <= k < |listed| => ExportRow(listed[k]))))
  }

  /** Cell `i` of a data line is kept when the header has a position `i` and the
      name there is a known column. */
  predicate Kept(header: seq<string>, row: seq<string>, i: int) {
    0 <= i < |row| && i < |header| && header[i] in ColumnNames
  }

  /** The dictionary import_csv builds from one data line: cells are visited left
      to right, so a later cell under a repeated header name wins. */
  function ImportRow(header: seq<string>, row: seq<string>): (d: map<string, Value>)
    ensures forall c :: c in d ==> c in ColumnNames
    decreases |row|
  {
    if row == [] then map[]
    else if Kept(header, row, |row| - 1) then
      ImportRow(header, row[..|row| - 1])[header[|row| - 1] := Text(row[|row| - 1])]
    else ImportRow(header, row[..|row| - 1])
  }

  /** A name is a key of the dictionary exactly when some kept cell stands under it. */
  lemma {:induction false} ImportRowKeys(header: seq<string>, row: seq<string>)
    ensures forall c :: c in ImportRow(header, row) <==> exists i :: Kept(header, row, i) && header[i] == c
    decreases |row|
  {
    if row != [] {
      var init := row[..|row| - 1];
      ImportRowKeys(header, init);
      forall i | Kept(header, init, i) ensures Kept(header, row, i) { }
      forall i | Kept(header, row, i) && i < |init| ensures Kept(header, init, i) { }
    }
  }

  /** A kept cell whose header name does not come again further right is the
      value stored under that name. */
  lemma {:induction false} ImportRowValue(header: seq<string>, row: seq<string>, i: int)
    requires Kept(header, row, i)
    requires forall j :: i < j < |row| && j < |header| ==> header[j] != header[i]
    ensures header[i] in ImportRow(header, row) && ImportRow(header, row)[header[i]] == Text(row[i])
    decreases |row|
  {
    if i < |row| - 1 {
      var init := row[..|row| - 1];
      assert init[i] == row[i];
      ImportRowValue(header, init, i);
    }
  }

  /** The records an import of these lines appends: the first line is the
      header, every later line becomes one record, with consecutive fresh ids
      from `start`. Without any line, nothing is imported. */
  function Imported(start: int, lines: seq<seq<string>>): (out: seq<Record>)
    ensures |out| == if lines == [] then 0 else |lines| - 1
  {
    if lines == [] then []
    else seq(|lines| - 1, k requires 0 <= k < |lines| - 1 => Record(start + k, RowOf(ImportRow(lines[0], lines[k + 1]))))
  }

  /** `import_csv`: one insert per data line. An id column in the file is a known
      name, so it lands in the dictionary, but inserts never write it. */
  method ImportCsv(table: EmployeeTable, lines: seq<seq<string>>)
    requires table.Valid()
    modifies table
    ensures table.Valid()
    ensures table.records == old(table.records) + Imported(old(table.nextId), lines)
    ensures table.nextId == old(table.nextId) + |Imported(old(table.nextId), lines)|
  {
    if lines == [] {
      return;
    }
    var header := lines[0];
    ghost var all := Imported(old(table.nextId), lines);
    var k := 1;
    while k < |lines|
      invariant 1 <= k <= |lines|
      invariant table.Valid()
      invariant table.nextId == old(table.nextId) + (k - 1)
      invariant table.records == old(table.records) + all[..k - 1]
    {
      var d := ImportRow(header, lines[k]);
      var id := table.Insert(d);
      assert all[k - 1] == Record(id, RowOf(d));
      PrefixStep(all, k - 1);
      k := k + 1;
    }
    assert all[..k - 1] == all;
  }

  /** The texts of a row whose cells are all text. */
  function Texts(cells: seq<Value>): (texts: seq<string>)
    requires forall k :: 0 <= k < |cells| ==> cells[k].Text?
    ensures |texts| == |cells|
    ensures forall k :: 0 <= k < |cells| ==> cells[k] == Text(texts[k])
  {
    seq(|cells|, k requires 0 <= k < |cells| => cells[k].s)
  }

  /** Round trip of one row: importing, under the exported header, a line that
      holds any id text and then a record's text cells writes exactly that
      record's cells. */
  lemma ImportReadsExportedRow(r: Record, idText: string)
    requires |r.cells| == |DataColumns|
    requires forall k :: 0 <= k < |r.cells| ==> r.cells[k].Text?
    ensures RowOf(ImportRow(ColumnNames, [idText] + Texts(r.cells))) == r.cells
  {
    ColumnsDistinct();
    var line := [idText] + Texts(r.cells);
    var d := ImportRow(ColumnNames, line);
    forall k | 0 <= k < |DataColumns| ensures RowOf(d)[k] == r.cells[k] {
      assert DataColumns[k] == ColumnNames[k + 1];
      assert line[k + 1] == Texts(r.cells)[k];
      ImportRowValue(ColumnNames, line, k + 1);
    }
  }

  /** One written row: every cell turned into text by `show`. */
  function WrittenRow(show: Value -> string, row: seq<Value>): seq<string> {
    seq(|row|, j requires 0 <= j < |row| => show(row[j]))
  }

  /** The lines of a written file: the header, then every written row. */
  function WrittenLines(show: Value -> string, sheet: Sheet): seq<seq<string>> {
    [sheet.header] + seq(|sheet.rows|, k requires 0 <= k < |sheet.rows| => WrittenRow(show, sheet.rows[k]))
  }

  lemma WrittenExportRow(show: Value -> string, r: Record)
    requires forall k :: 0 <= k < |r.cells| ==> r.cells[k].Text?
    requires forall s :: show(Text(s)) == s
    ensures WrittenRow(show, ExportRow(r)) == [show(Int(r.id))] + Texts(r.cells)
  {
    var w := WrittenRow(show, ExportRow(r));
    forall j | 1 <= j < |w| ensures w[j] == Texts(r.cells)[j - 1] {
      assert ExportRow(r)[j] == r.cells[j - 1] == Text(Texts(r.cells)[j - 1]);
    }
  }

  /** One exported row, written and imported again, is a copy of its record. */
  lemma RoundTripAt(rs: seq<Record>, show: Value -> string, start: int, k: int)
    requires rs != [] && WellFormed(rs) && 0 <= k < |rs|
    requires forall i, j :: 0 <= i < |rs| && 0 <= j < |rs[i].cells| ==> rs[i].cells[j].Text?
    requires forall s :: show(Text(s)) == s
    ensures Imported(start, WrittenLines(show, ExportCsv(rs).value))[k] == Record(start + k, rs[|rs| - 1 - k].cells)
  {
    var sheet := ExportCsv(rs).value;
    var lines := WrittenLines(show, sheet);
    var r := rs[|rs| - 1 - k];
    assert sheet.rows[k] == ExportRow(r);
    WrittenExportRow(show, r);
    assert lines[k + 1] == [show(Int(r.id))] + Texts(r.cells);
    assert lines[0] == ColumnNames;
    ImportReadsExportedRow(r, show(Int(r.id)));
  }

  /** Export followed by import: for a table whose cells are all text, and any
      way of writing a cell that writes a text as itself, importing the exported
      file appends a copy of every record, newest first, under fresh ids. */
  lemma ExportImportRoundTrip(rs: seq<Record>, show: Value -> string, start: int)
    requires rs != [] && WellFormed(rs)
    requires forall i, k :: 0 <= i < |rs| && 0 <= k < |rs[i].cells| ==> rs[i].cells[k].Text?
    requires forall s :: show(Text(s)) == s
    ensures var copied := Imported(start, WrittenLines(show, ExportCsv(rs).value));
      |copied| == |rs| &&
      forall k :: 0 <= k < |rs| ==> copied[k] == Record(start + k, rs[|rs| - 1 - k].cells)
  {
    forall k | 0 <= k < |rs|
      ensures Imported(start, WrittenLines(show, ExportCsv(rs).value))[k] == Record(start + k, rs[|rs| - 1 - k].cells)
    {
      RoundTripAt(rs, show, start, k);
    }
  }

  /** The two file kinds the application reads and writes. */
  datatype Format = Csv | Spreadsheet

  /** `str.lower()` on the letters A to Z. */
  function LowerAscii(s: string): (r: string)
    ensures |r| == |s|
    ensures forall k :: 0 <= k < |s| ==> r[k] == if 'A' <= s[k] <= 'Z' then s[k] - 'A' + 'a' else s[k]
  {
    seq(|s|, k requires 0 <= k < |s| => if 'A' <= s[k] <= 'Z' then s[k] - 'A' + 'a' else s[k])
  }

  predicate EndsWith(s: string, suffix: string) {
    |suffix| <= |s| && s[|s| - |suffix|..] == suffix
  }

  /** The import handler: `.xls` or `.xlsx` in any letter case is read as a
      spreadsheet, anything else as CSV. */
  function ImportFormat(path: string): (f: Format)
    ensures f == Spreadsheet <==> EndsWith(LowerAscii(path), ".xls") || EndsWith(LowerAscii(path), ".xlsx")
  {
    if EndsWith(LowerAscii(path), ".xls") || EndsWith(LowerAscii(path), ".xlsx") then Spreadsheet else Csv
  }

  /** The export handler: only `.xlsx`, in any letter case, is written as a
      spreadsheet; `.xls` and everything else is written as CSV. */
  function ExportFormat(path: string): (f: Format)
    ensures f == Spreadsheet <==> EndsWith(LowerAscii(path), ".xlsx")
    ensures f == Spreadsheet ==> ImportFormat(path) == Spreadsheet
  {
    if EndsWith(LowerAscii(path), ".xlsx") then Spreadsheet else Csv
  }

  /** The one asymmetry: a `.xls` file is read as a spreadsheet but written as CSV. */
  lemma XlsReadButNotWritten(path: string)
    requires EndsWith(LowerAscii(path), ".xls")
    ensures ImportFormat(path) == Spreadsheet && ExportFormat(path) == Csv
  {
    var low := LowerAscii(path);
    assert low[|low| - 1] == 's';
  }

  /** A `.csv` path, in any letter case, is read and written as CSV. */
  lemma CsvPathIsCsv(path: string)
    requires EndsWith(LowerAscii(path), ".csv")
    ensures ImportFormat(path) == Csv && ExportFormat(path) == Csv
  {
    var low := LowerAscii(path);
    assert low[|low| - 1] == 'v';
    assert low[|low| - 4..][3] == 'v';
  }

  /** The letter case of a path does not change either choice. */
  lemma DispatchIgnoresCase(path: string)
    ensures ImportFormat(LowerAscii(path)) == ImportFormat(path)
    ensures ExportFormat(LowerAscii(path)) == ExportFormat(path)
  {
    assert LowerAscii(LowerAscii(path)) == LowerAscii(path);
  }
}
