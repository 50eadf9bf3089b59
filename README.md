# Gestão RH — a verified model of the register's core

Gestão RH is a single-window desktop register of employees (`colaboradores`)
kept in one SQLite table. This project models in Dafny the logic that remains
once the widgets, the SQL engine, the PDF drawing and the file system are
abstracted away, and proves what that logic promises:

- **Columns** (`columns.dfy`): the fixed column catalogue `BASE_COLUMNS`
  (`id` plus 31 data columns), the cell values the table holds, and the
  positions the other modules rely on.
- **Migration** (`migration.dfy`): the start-up schema set-up, which creates
  the table with `id` and `nome` when it is absent and then adds, one
  `ALTER TABLE` at a time, every base column it lacks. A method with the loop
  is proved against a function of the start columns. The function is shown to
  add exactly the missing columns, in catalogue order, to keep every existing
  column, and to add nothing on a second run.
- **Net pay** (`netpay.dfy`): the three net-pay rules. Amounts are exact
  integers of cents, and text-to-number conversion (`float()`) is a parameter
  returning `None` where Python raises.
  - The save rule converts each amount on its own and counts a failure as 0.
  - The update rule is all-or-nothing: one failed conversion keeps the typed net.
  - The payslip rule falls back to `max(0, gross − (transport + allowance))`
    when the stored net is falsy.
- **Store** (`store.dfy`): the table as a class. It holds the rows in rowid
  order and an AUTOINCREMENT counter, and supports insert, full-row update,
  delete, single-cell update and the filtered listing (newest first). Its
  invariant is kept by every operation, and lemmas state what each operation
  does to the lookup by id.
- **Transfer** (`transfer.dfy`): the CSV export and import.
  - Export fails on an empty table. Otherwise it writes the header and one row
    per listed record.
  - Import maps header names to columns, keeps a later cell under a repeated
    name, and inserts one record per data line in a loop.
  - For tables of text cells, exporting and then importing copies every
    record.
  - The file extension decides between CSV and spreadsheet.
- **Strings** (`strings.dfy`): the one-character `str.replace` that both the
  payslip's file name and the cell editor use.
- **Payslip** (`payslip.dfy`): the payslip's file name (`safe_name` and the
  output path, with the timestamp as a parameter) and the four amounts it
  prints.
- **Window** (`window.dfy`): the main window's record state as a class.
  - State: the cached listing, the navigation cursor, the selected row and the
    last filter.
  - Handlers: reload, selection, first/previous/next/last, save, update,
    delete and the cell editor.
  - Invariant: the cache is the table's listing under the last filter, and the
    cursor is -1 on an empty cache and a row position otherwise.

Points where the code's behaviour is worth spelling out:

- **The allowance.** Both net-pay rules subtract it (`bruto - (passagem + abono)`).
  Gross 3000.00 with transport 150.00
  saves 2850.00, and an update with an allowance of 100 then stores 2750.00
  (`NetPay.AllowanceIsSubtracted`).
- **The typed net on save.** The save handler overwrites any net the user typed,
  although its comment at `gestao_rh_v1_2_1.py:514` says it computes the net
  only when none is provided.
- **No validation, paging or copying.** The code does not validate names,
  does not paginate the listing, and attaching a PDF only writes the chosen
  path into a field without copying the file.

## Model

| member | source | states |
|---|---|---|
| Columns.CatalogueSize | gestao_rh_v1_2_1.py:35-68 | The catalogue has 32 columns and, without `id`, 31 data columns. |
| Columns.CatalogueFacts | gestao_rh_v1_2_1.py:35-68 | `id` is the first column; nome, cargo, salario_bruto, valor_passagem, valor_abono and salario_liquido sit at the positions the other modules use. |
| Columns.ColumnsDistinct | gestao_rh_v1_2_1.py:35-68 | No column name occurs twice in the catalogue. |
| Migration.MigratedColumns | gestao_rh_v1_2_1.py:88-115 | The columns before the loop (the table's own, or `id` and `nome` when CREATE TABLE made it) are a prefix of the result: nothing is dropped, renamed or reordered. |
| Migration.AddMissing | gestao_rh_v1_2_1.py:98-115 | The loop, with the present names read once before it and failing ALTERs skipped, yields the start columns followed by exactly the planned columns. |
| Migration.Migrate | gestao_rh_v1_2_1.py:88-115 | Creating the table when absent and running the loop over the catalogue yields exactly the migrated column list. |
| Migration.PlannedMembers | gestao_rh_v1_2_1.py:104-115 | A column is added exactly when it is a catalogue column that is absent, is not `id` and is not rejected by the engine. |
| Migration.PlannedConcat | gestao_rh_v1_2_1.py:104-115 | The columns are added in catalogue order: the plan for a concatenation is the concatenation of the plans. |
| Migration.NothingPlanned | gestao_rh_v1_2_1.py:104-115 | When every catalogue column is present, is `id` or is rejected, the loop adds nothing. |
| Migration.MigrationComplete | gestao_rh_v1_2_1.py:104-115 | Afterwards every catalogue column other than `id` is present unless the engine rejected it, and every added column is a catalogue column that was absent. |
| Migration.MigrationIdempotent | gestao_rh_v1_2_1.py:88-115 | Migrating an already migrated table leaves its columns as they are. |
| NetPay.Amount | gestao_rh_v1_2_1.py:514-525 | `float(s or 0)`: the empty text is 0, any other text is whatever the conversion gives. |
| NetPay.SaveNet | gestao_rh_v1_2_1.py:514-527 | The saved net is gross − (transport + allowance) when all three convert; each amount that fails counts as 0. |
| NetPay.UpdateNet | gestao_rh_v1_2_1.py:544-551 | A number is stored exactly when all three amounts convert, and it equals the save rule's net; otherwise the typed net is kept. |
| NetPay.StoredAmount | gestao_rh_v1_2_1.py:274-276 | `float(v or 0)` on a stored cell: falsy cells are 0, amounts are themselves, texts go through the conversion. |
| NetPay.PayslipNet | gestao_rh_v1_2_1.py:274-277 | The payslip succeeds exactly when all four cells convert; a falsy stored net is replaced by max(0, gross − (transport + allowance)), stated as at least 0, at least the difference and equal to one of the two; a truthy stored net is printed as stored. |
| NetPay.PayslipShowsSavedNet | gestao_rh_v1_2_1.py:274-277 | A row written by the save rule prints on its payslip exactly the net the save rule computed, negative or not, provided the three amount texts convert; otherwise the payslip fails. |
| NetPay.AllowanceIsSubtracted | gestao_rh_v1_2_1.py:527 | Gross 3000.00, transport 150.00 and allowance 0 save 2850.00; allowance 100 then updates the net to 2750.00. |
| Store.RowOf | gestao_rh_v1_2_1.py:139-142 | The written row has one cell per data column, in catalogue order: the dictionary's value, or the empty text for a missing key. |
| Store.RowOfIgnoresId | gestao_rh_v1_2_1.py:139-142 | An `id` key in the dictionary never reaches the written row. |
| Store.Lookup | gestao_rh_v1_2_1.py:152-153 | Finding a row by id: absent exactly when no row has that id; otherwise a row of the table. |
| Store.Patched | gestao_rh_v1_2_1.py:147-155 | An UPDATE ... WHERE id=? keeps the number and the ids of the rows, edits the row with that id and leaves every other row as it was. |
| Store.Removed | gestao_rh_v1_2_1.py:157-162 | A DELETE ... WHERE id=? keeps exactly the rows with another id. |
| Store.ListingMembers | gestao_rh_v1_2_1.py:123-134 | A row is listed exactly when the filter is empty or its nome or cargo contains the filter text. |
| Store.ListingDescending | gestao_rh_v1_2_1.py:127-130 | The listing is ordered by id, descending. |
| Store.ListingUnfiltered | gestao_rh_v1_2_1.py:130 | With an empty filter every row is listed, newest first. |
| Store.LookupPatched | gestao_rh_v1_2_1.py:147-155 | After an update, the row with that id has the new cells, every other id reads as before, and an absent id changes nothing. |
| Store.LookupRemoved | gestao_rh_v1_2_1.py:157-162 | After a delete, that id is gone and every other id reads as before. |
| Store.LookupAppended | gestao_rh_v1_2_1.py:136-145 | After an insert under a fresh id, that id reads as the new row and every other id as before. |
| Store.RemovedAscending | gestao_rh_v1_2_1.py:157-162 | Deleting keeps the rows in rowid order. |
| Store.EmployeeTable.constructor | gestao_rh_v1_2_1.py:89-95 | A new table is empty and its next id is 1. |
| Store.EmployeeTable.List | gestao_rh_v1_2_1.py:123-134 | The listing holds exactly the matching rows, ordered by descending id, and all rows when the filter is empty. |
| Store.EmployeeTable.Insert | gestao_rh_v1_2_1.py:136-145 | Appends one row, under an id larger than every existing id, whose cells come from the dictionary or are empty text; the counter moves on. |
| Store.EmployeeTable.Update | gestao_rh_v1_2_1.py:147-155 | Every data cell of the row with that id is rewritten from the dictionary; the id counter is unchanged. |
| Store.EmployeeTable.Delete | gestao_rh_v1_2_1.py:157-162 | The row with that id is removed and the counter is unchanged, so ids are never reused. |
| Store.EmployeeTable.SetCell | gestao_rh_v1_2_1.py:665-667 | Exactly one data cell of the row with that id is rewritten. |
| Transfer.ExportCsv | gestao_rh_v1_2_1.py:165-176 | Fails with "Nenhum registro" exactly when the table is empty; otherwise the header is all 32 column names, `id` included, and row k is the id and cells of the k-th newest record. |
| Transfer.ImportRow | gestao_rh_v1_2_1.py:184-191 | The dictionary built from one line holds known column names only. |
| Transfer.ImportRowKeys | gestao_rh_v1_2_1.py:187-191 | A name is in the dictionary exactly when some cell within the header's length stands under it and it is a known column. |
| Transfer.ImportRowValue | gestao_rh_v1_2_1.py:187-191 | A kept cell whose header name does not recur further right is the value stored under that name. |
| Transfer.Imported | gestao_rh_v1_2_1.py:178-194 | The records an import appends: one per data line after the header, none for an empty file. |
| Transfer.ImportCsv | gestao_rh_v1_2_1.py:178-194 | One insert per data line, in file order, with consecutive fresh ids; the existing rows stay first and unchanged. |
| Transfer.ImportReadsExportedRow | gestao_rh_v1_2_1.py:165-194 | Importing, under the exported header, an exported line of text cells writes back exactly that record's cells, whatever the id cell says. |
| Transfer.RoundTripAt | gestao_rh_v1_2_1.py:165-194 | The k-th exported row, written and imported again, becomes a record with the k-th fresh id and the cells of the k-th newest record. |
| Transfer.ExportImportRoundTrip | gestao_rh_v1_2_1.py:165-194 | For a table of text cells, importing the exported file appends a copy of every record, newest first, under fresh ids. |
| Transfer.LowerAscii | gestao_rh_v1_2_1.py:716 | Lower-casing keeps the length and maps A to Z onto a to z. |
| Transfer.ImportFormat | gestao_rh_v1_2_1.py:716 | A path is read as a spreadsheet exactly when, in any letter case, it ends in `.xls` or `.xlsx`; every other path is read as CSV. |
| Transfer.ExportFormat | gestao_rh_v1_2_1.py:736 | A path is written as a spreadsheet exactly when, in any letter case, it ends in `.xlsx`; every other path is written as CSV; a path written as a spreadsheet is also read as one. |
| Transfer.XlsReadButNotWritten | gestao_rh_v1_2_1.py:716-736 | A `.xls` path is read as a spreadsheet but written as CSV. |
| Transfer.CsvPathIsCsv | gestao_rh_v1_2_1.py:716-736 | A `.csv` path is read and written as CSV. |
| Transfer.DispatchIgnoresCase | gestao_rh_v1_2_1.py:716-736 | The letter case of the path changes neither choice. |
| Payslip.Field | gestao_rh_v1_2_1.py:223-224 | `dict(zip(columns, record)).get`: the record's cell at that position, or None past its end. |
| Strings.Replace | gestao_rh_v1_2_1.py:226 | Every occurrence of the replaced character becomes the replacement, every other character stays in place, the length is kept, and none of the replaced character is left. |
| Payslip.SafeName | gestao_rh_v1_2_1.py:226 | A falsy name becomes "colaborador", a text has its spaces replaced, any other value makes the generator fail; a safe name is never empty and has no space. |
| Payslip.PayslipPath | gestao_rh_v1_2_1.py:227 | The path is defined exactly when the safe name is; it is the reports directory, `contracheque_`, the safe name, `_`, the timestamp and `.pdf`. |
| Payslip.PathIdentifiesName | gestao_rh_v1_2_1.py:226-227 | Under one timestamp, two non-empty names without underscores that give the same path are the same name. |
| Payslip.SpaceAndUnderscoreCollide | gestao_rh_v1_2_1.py:226-227 | "Ana Maria" and "Ana_Maria" share a payslip path. |
| Payslip.PayslipFigures | gestao_rh_v1_2_1.py:274-277 | The printed gross, transport and allowance are the converted cells; a falsy stored net prints max(0, gross − (transport + allowance)) and a truthy one prints as stored; any failed conversion fails the payslip. |
| Payslip.EmptyRecordPaysNothing | gestao_rh_v1_2_1.py:274-277 | Any record whose gross, transport, allowance and net cells are all blank prints zero for all four figures. |
| Window.FirstCursor | gestao_rh_v1_2_1.py:679-683 | First puts the cursor on row 0 of a non-empty cache and does nothing on an empty one. |
| Window.PrevCursor | gestao_rh_v1_2_1.py:685-688 | Previous moves the cursor up exactly one row, and does nothing at the top or on an empty cache. |
| Window.NextCursor | gestao_rh_v1_2_1.py:690-693 | Next moves the cursor down exactly one row, and does nothing at the last row. |
| Window.LastCursor | gestao_rh_v1_2_1.py:695-698 | Last puts the cursor on the last row of a non-empty cache and does nothing on an empty one. |
| Window.MovesStayInRange | gestao_rh_v1_2_1.py:679-698 | All four moves keep the cursor in [0, len − 1], or at -1 on an empty cache. |
| Window.NextThenPrev | gestao_rh_v1_2_1.py:685-693 | Next then previous returns to the same row, except at the last row. |
| Window.NextReachesLast | gestao_rh_v1_2_1.py:690-693 | Pressing next k times moves k rows down, stopping at the last row. |
| Window.FindById | gestao_rh_v1_2_1.py:621-627 | The search returns the first cached position holding the id, or -1 exactly when no cached row has it. |
| Window.SavedRow | gestao_rh_v1_2_1.py:508-528 | The saved row holds every form field as typed, except the net, which the save rule recomputes whatever was typed. |
| Window.UpdatedRow | gestao_rh_v1_2_1.py:535-552 | The updated row holds every form field as typed; the net is recomputed when all three amounts convert and kept as typed otherwise. |
| Window.SavedRecordPayslip | gestao_rh_v1_2_1.py:274-277 | A record saved from the form prints, on its payslip, the net the save rule stored, provided the three amount texts convert; otherwise the payslip fails. |
| Window.EditedValue | gestao_rh_v1_2_1.py:657-667 | The five amount columns get a number (0 when conversion fails); every other column gets the typed text. |
| Window.App.constructor | gestao_rh_v1_2_1.py:501-504 | The window starts on the full listing of the table, with the first row selected and under the cursor, or no selection and the cursor at -1 on an empty table. |
| Window.App.Reload | gestao_rh_v1_2_1.py:579-597 | The cache becomes the listing under the filter; the cursor and selection go to the first row, or to -1 and none on an empty listing. |
| Window.App.OnTreeSelect | gestao_rh_v1_2_1.py:603-629 | The cursor moves to the selected row; without a selection nothing changes. |
| Window.App.Click | gestao_rh_v1_2_1.py:488 | Selecting a row moves the selection and the cursor to it. |
| Window.App.SelectIndex | gestao_rh_v1_2_1.py:700-707 | A valid position becomes the selection and the cursor; any other does nothing. |
| Window.App.OnFirst | gestao_rh_v1_2_1.py:679-683 | The cursor moves as FirstCursor says and the first row is selected; nothing happens on an empty cache. |
| Window.App.OnPrev | gestao_rh_v1_2_1.py:685-688 | The cursor moves as PrevCursor says and, when it moved, the new row is selected. |
| Window.App.OnNext | gestao_rh_v1_2_1.py:690-693 | The cursor moves as NextCursor says and, when it moved, the new row is selected. |
| Window.App.OnLast | gestao_rh_v1_2_1.py:695-698 | The cursor moves as LastCursor says and the last row is selected; nothing happens on an empty cache. |
| Window.App.OnSave | gestao_rh_v1_2_1.py:508-533 | Appends the form, with the recomputed net, under the next id, then shows the full listing with the first row selected and under the cursor (or no selection and cursor -1 when empty); a form missing a field changes nothing. |
| Window.App.OnUpdate | gestao_rh_v1_2_1.py:535-554 | Rewrites the selected record from the form, then shows the full listing with the first row selected and under the cursor; without a selection nothing changes. |
| Window.App.OnDelete | gestao_rh_v1_2_1.py:556-566 | Deletes the selected record once confirmed, then shows the full listing with the first row selected and under the cursor, or no selection and cursor -1 when the table is left empty; without a selection or confirmation nothing changes. |
| Window.App.OnEditCell | gestao_rh_v1_2_1.py:631-676 | Writes one data column of the edited row (never `id`), then reloads under the search text with the first row selected and under the cursor (or none and -1); a click outside a row or on the `id` column changes nothing. |
| Window.App.WriteCell | gestao_rh_v1_2_1.py:657-667 | The UPDATE of one column rewrites exactly that data cell of the record shown at that row, keeping the table valid and its id counter. |

## Left out

- Widgets, layout, the Treeview's rendering and zebra tags, focus and scrolling, and clearing the form (`on_limpar`) are not modelled. Loading the selected row into the form is left out too. The form is a parameter of the handlers, and a confirmation dialog is a boolean.
- Window.App.Click: the Treeview can hold several selected rows; the model keeps at most one (the handlers read only the first).
- The SQL engine is not modelled: SQL text, connections, `PRAGMA table_info`, and the type affinity that would turn a numeric text written to a REAL column into a number. Values are stored as written.
- Migration.MigratedColumns: which `ALTER TABLE` statements fail is a parameter (`rejected`); why the engine rejects one is not modelled.
- Store.ListingMembers: `LIKE` wildcards (`%`, `_`) in the filter and ASCII case folding are not modelled; the filter is a plain substring test on text cells.
- The table's column order after a migration of an older table is not modelled. The model assumes `SELECT *` returns the catalogue order, which holds for a table made by this version. Extra columns of older tables are not modelled either.
- Text-to-number conversion (`float()` with its grammar, infinities and NaN), binary floating-point rounding, and the `:,.2f` display are not modelled. Amounts are exact cents, conversion is a parameter, and `round(x, 2)` is the identity on cents.
- Transfer.ExportCsv: how the CSV writer renders a cell (quoting, escaping, `str()` of numbers) is not modelled. The round trip takes the cell writer as a parameter that writes a text as itself.
- Transfer.ExportImportRoundTrip: proved only for tables whose cells are all text. Number cells come back as their written text.
- The spreadsheet import and export through pandas (`import_excel`, `export_excel`) are not modelled: they are a foreign library whose column mapping mirrors the CSV one. Only the dispatch between the two formats is modelled.
- File I/O is not modelled: opening and writing files, creating directories, the backup and restore copies, and the failures of any of these.
- The payslip's PDF drawing, the logo image, opening the file and the timestamp clock are not modelled. The timestamp is a parameter of `Payslip.PayslipPath`.
- Payslip.PayslipFigures, NetPay.PayslipNet, Payslip.SafeName: the row is read as database values, but the handler passes the Treeview's display strings. Two cases therefore differ from the program. A zero net shows as "0.0", which is truthy: a net the cell editor set to 0 prints 0.00 in the program, where the model prints the fallback. A NULL cell shows as "None": `float()` fails on it in the program, and a NULL name gives the file name "None" rather than "colaborador".
- Payslip.PayslipPath: the directory separator is the Windows one of the configured paths.
- Transfer.LowerAscii: `str.lower()` beyond the letters A to Z is not modelled.
- An exception raised by the database part-way through an import, which leaves the earlier lines inserted, is not modelled.
