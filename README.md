# SQLity core in Dafny

A model of the core of SQLity, a VS Code extension that opens SQLite files
in a custom editor. The model covers these parts:

- **The database adapter** (`Database` in src/database.ts). It keeps an open
  sql.js database and a dirty flag, and writes the database back to its file
  after every change. The model covers:
  - the lifecycle: open, flush, close, and the "Database not open" error;
  - the read/write classification of free-form SQL;
  - paging;
  - row edits, inserts and deletes;
  - CSV and JSON imports inside a transaction with rollback;
  - the CSV export escaper and the CSV reader `parseCSV`;
  - the DDL text `getSchemaSQL` renders;
  - the type-directed value coercion `castValue`.
- **The editor provider's per-file state** (src/editorProvider.ts). This is
  the query history (newest first, at most 100 entries, pinnable) and the
  saved queries (one per name).
- **The webview's browse state** (src/webview/main.ts). This covers:
  - the selected table, the pager and the sort column;
  - the set of checked rows;
  - the attribute escaper `attr`;
  - the rules that turn an edited cell into NULL or text;
  - the history preview.
- **The clean-up of a language-model reply** (src/lmAssist.ts). It strips a
  ```` ```sql ```` fence and surrounding white space.

The sql.js engine is a datatype of functions, `SqlEngine.Engine`. An open
database is its image: the bytes `export()` returns. Each engine call maps
an image, and a statement with its parameters, to the image it leaves and a
result or an error. The JavaScript conversions the core relies on are
supplied as a `JsRuntime.Runtime`:

- `Number()` on text;
- `String()` of a number;
- `new Date(s).toISOString()`;
- `toLocaleString()`.

Files (each is one module):

- types.dfy (`Types`): the records of src/types.ts, JavaScript values, Option/Result
- text.dfy (`Text`): `trim`, ASCII `toUpperCase`, `includes`, `join`, single-character `replace`, integer printing
- jsruntime.dfy (`JsRuntime`): `String(v)`, `Number(v)`, `Math.trunc`
- coercion.dfy (`Coercion`): `castValue`
- csv.dfy (`Csv`): `parseCSV` and the `exportCSV` escaper
- sqlengine.dfy (`SqlEngine`): the engine, the statements the adapter builds, bound values, the import transaction
- schemasql.dfy (`SchemaSql`): `getTables`, `getSchema`, the `getSchemaSQL` text
- database.dfy (`DatabaseAdapter`): class `Database`
- session.dfy (`Session`): `DbState`, `stateStore` and the history and saved-query handlers
- webview.dfy (`Webview`): the webview state and its pure helpers
- lmassist.dfy (`LmAssist`): the fence stripping of `generateSQL`

Notes on behaviour the model makes explicit:

- **`\r` breaks the CSV round trip.** The export escaper does not quote a
  field that holds `\r`, but the reader takes a lone `\r` for a line break.
  A cell such as `x\ry` therefore comes back as two rows
  (`Csv.CarriageReturnSplitsRow`). The round trip `Csv.ExportRoundTrip`
  holds exactly for tables without such fields whose last row is not one
  empty field.
- **`castValue` is not idempotent.** In a DATE/TIME column the text `" NULL"`
  is trimmed to `"NULL"`, and a second coercion turns that into null
  (`Coercion.CastNotIdempotentForPaddedNull`). For every other input the
  result is a fixed point of a second coercion (`Coercion.CastIdempotent`).
- **Some writes are classified as reads.** A statement such as
  `WITH x AS (...) DELETE ...` passes the read test. It goes through `exec`,
  and the model lets `exec` change the image, but the flag and the file are
  not touched. Such a change reaches the file only with a later write.

## Model

| member | source | states |
|---|---|---|
| Text.Trim | src/database.ts:141 | `trim()` leaves no white space, in the ECMAScript sense, at either end |
| Text.TrimRemovesOnlyEnds | src/database.ts:141 | `trim()` returns a contiguous slice of the text, and everything cut before and after it is white space: the middle is kept |
| Text.TrimIdempotent | src/lmAssist.ts:51 | trimming twice is trimming once |
| JsRuntime.Trunc | src/database.ts:342 | `Math.trunc` gives an integral value between 0 and the number, less than 1 away from it |
| Coercion.CastValue | src/database.ts:334-367 | the coerced value is always null, a number or a text |
| Coercion.CastNullRule | src/database.ts:335 | the result is null exactly when the value is null, undefined or the text "NULL" (case-sensitive), for every column type |
| Coercion.CastIntegerColumn | src/database.ts:338-343 | INT/BOOL columns: a boolean gives 1 or 0; a numeric value is truncated toward zero; a non-numeric one keeps its `String` form |
| Coercion.CastRealColumn | src/database.ts:345-355 | REAL-like columns that are not INT/BOOL: the number, or the text when `Number` gives NaN |
| Coercion.CastDateColumn | src/database.ts:357-363 | DATE/TIME columns reached after both earlier branches: a trimmed value starting with `dddd-dd-dd` is kept; otherwise the ISO date, or the trimmed text for an invalid date |
| Coercion.CastTextColumn | src/database.ts:365-366 | every other type: the `String` form of the value |
| Coercion.CastIntegerExamples | src/database.ts:339-342 | in an `INTEGER` column "37" is bound as 37 and "abc" as the text "abc" |
| Coercion.DateTimeIsDateAffinity | src/database.ts:336-358 | a `datetime` column passes the INT and REAL tests and reaches the DATE/TIME branch |
| Coercion.CastIdempotent | src/database.ts:334-367 | for a runtime whose printed numbers are not "NULL" and whose `toISOString` output (expanded years included) is trimmed and parses back to itself, coercing a coerced value again changes nothing, except for a non-null value that reaches the DATE/TIME branch with the trimmed text "NULL" |
| Coercion.CastNotIdempotentForPaddedNull | src/database.ts:335-360 | in a DATE column " NULL" is coerced to the text "NULL" and that text to null |
| Csv.Step | src/database.ts:378-404 | one loop iteration consumes one character, or two for `""` inside quotes and for `\r\n` |
| Csv.Finish | src/database.ts:406-409 | the finished rows are kept; one more row, the pending row with the pending field, is emitted exactly when a field or row is pending |
| Csv.Scan | src/database.ts:378-409 | the reader's state machine run to the end of the input; its behaviour per character is stated by Csv.QuotedBodyScan, Csv.CommaScan, Csv.LineBreakScan and Csv.RowThenBreakScan |
| Csv.Parse | src/database.ts:372-411 | `parseCSV` as a function; stated by Csv.ParseRowsNonEmpty, Csv.ParseEdgeCases, Csv.ParseQuoteFree and the round trips Csv.CsvRoundTrip and Csv.ExportRoundTrip |
| Csv.ParseCsv | src/database.ts:372-411 | the index loop with its lookahead returns exactly `Parse(csv)` |
| Csv.ParseRowsNonEmpty | src/database.ts:396-409 | every row the reader emits has at least one field |
| Csv.ParseEdgeCases | src/database.ts:396-410 | empty input gives no rows; a lone `\n` or `\r\n` gives one row with one empty field |
| Csv.ParseQuoteFree | src/database.ts:380-392 | a quote character reaches a field only through `""`: input without a doubled quote yields no quote |
| Csv.QuotedBodyScan | src/database.ts:380-390 | inside quotes, `""` reads as one quote and every other character is literal, up to the closing quote |
| Csv.CommaScan | src/database.ts:393-395 | outside quotes a comma closes the field |
| Csv.LineBreakScan | src/database.ts:396-401 | outside quotes, `\n`, a lone `\r` or `\r\n` closes the row |
| Csv.EscapeText | src/database.ts:242-245 | a field with a comma, a quote or a line feed is wrapped in quotes; any other field is unchanged |
| Csv.EscapeRowIsEscapeAll | src/database.ts:240-242 | escaping a cell escapes its text, with the empty text for null |
| Csv.ExportTextIsLines | src/database.ts:247-249 | the export is the header line, then one line per row, joined by `\n` |
| Csv.RowThenBreakScan | src/database.ts:393-401 | the fields of one escaped line followed by any line break are emitted as exactly that row, and a fresh row starts |
| Csv.CsvRoundTrip | src/database.ts:372-411 | the reader gives back every table of escaped lines, with any of its three line breaks, when no field holds an unquoted `\r` and the last row is not one empty field |
| Csv.ExportRoundTrip | src/database.ts:237-249 | reading an export gives back the header and the `String` form of every cell, with the empty text for null, under the same two conditions |
| Csv.CarriageReturnSplitsRow | src/database.ts:243-245 | a cell `x\ry` is written unquoted and read back as two rows |
| SqlEngine.PlaceholderCount | src/database.ts:270 | the placeholder list holds one `?` per element |
| SqlEngine.InsertSqlArity | src/database.ts:270-271 | the INSERT of the imports and `insertRow` has one bind parameter per column named |
| SqlEngine.UpdateSqlArity | src/database.ts:204 | the UPDATE binds exactly two parameters, the value and the rowid |
| SqlEngine.DeleteSqlArity | src/database.ts:229-230 | the DELETE has one bind parameter per rowid |
| Types.FirstWithKey | src/database.ts:278 | `find` by a string key: the index of the first element with the key, or none when no element has it |
| SqlEngine.FindColumn | src/database.ts:278 | the index of the first column with the name, or none when no column has it (a `Types.FirstWithKey` search) |
| SqlEngine.CsvRowValues | src/database.ts:277-280 | one value is bound per CSV cell |
| SqlEngine.CsvEmptyCellIsNull | src/database.ts:279 | an empty CSV cell is bound as null, whatever the column type |
| SqlEngine.Lookup | src/database.ts:308 | `obj[key]`: the own value of the first entry with the key; a missing key is stated by SqlEngine.LookupMissing |
| SqlEngine.LookupMissing | src/database.ts:308 | a key missing from a JSON object reads as undefined, unless it names a member inherited from `Object.prototype`, which reads as that member's text |
| SqlEngine.JsonRowValues | src/database.ts:306-309 | one value is bound per key of the first object |
| SqlEngine.JsonMissingKeyIsNull | src/database.ts:306-309 | a later object that lacks a key of the first object binds null for it, or the coerced text of the inherited member when the key names one |
| SqlEngine.InheritedKeyIsNotNull | src/database.ts:306-308 | for `[{"toString": 1}, {}]` the second row binds the inherited function's text, not null |
| SqlEngine.InsertAll | src/database.ts:276-283 | when every row's INSERT succeeds, the count is the number of rows |
| SqlEngine.Transaction | src/database.ts:274-288 | on success the count is the number of rows; after BEGIN, a failing row or COMMIT is rolled back to the image as it was before BEGIN |
| SqlEngine.InsertAllSucceeds | src/database.ts:276-284 | when each row's INSERT succeeds on every image, the batch succeeds |
| SqlEngine.FirstRowFailure | src/database.ts:281-287 | a failing row ends the batch with that row's error |
| SchemaSql.Tables | src/database.ts:49-66 | one entry per table or view, in the engine's order, with its name, its kind and the row count its COUNT(*) gives (0 when that is empty or throws) |
| SchemaSql.FailingCountListsZero | src/database.ts:57-63 | a table whose COUNT(*) throws is still listed, with 0 rows |
| SchemaSql.Indexes | src/database.ts:81-92 | one entry per `index_list` row, in order, with its name, its uniqueness and the key columns `index_info` lists |
| SchemaSql.FkMapLastWins | src/database.ts:105-110 | a column has a foreign-key entry exactly when some row starts from it, and the entry is the last such row |
| SchemaSql.ImplicitKeyReadsAsNullColumn | src/database.ts:119 | as written, an implicit parent key renders like a parent column named `null` |
| SchemaSql.ReferenceClause | src/database.ts:118-119 | the corrected reference clause: as written for an explicit parent column, and a bare `REFERENCES "t"` for an implicit one |
| SchemaSql.ReferenceClauseDistinguishesImplicitKey | src/database.ts:119 | the corrected clause of an implicit key differs from that of every explicit column |
| SchemaSql.ColumnClause | src/database.ts:113-120 | a column clause starts with the name and the type (or ANY), is only that when no flag, default or reference applies, and ends with the reference clause as written when the column has a foreign key |
| SchemaSql.ColumnClauseOrder | src/database.ts:113-120 | PRIMARY KEY follows the type exactly when the column is a key; NOT NULL follows it exactly when the column is declared so; the default text comes verbatim after them, followed only by the reference; with neither default nor reference the flags end the clause |
| SchemaSql.ColumnClausePrimaryKey | src/database.ts:115 | PRIMARY KEY follows the name and type exactly when the column is part of the primary key |
| SchemaSql.ColumnClauseNotNull | src/database.ts:116 | NOT NULL follows the name, type and key flag exactly when the column is declared NOT NULL |
| SchemaSql.ColumnClauseDefault | src/database.ts:117 | a column with a default ends with ` DEFAULT ` and the default text verbatim, then the reference if any |
| SchemaSql.KeyColumnExample | src/database.ts:113-117 | a key `id INTEGER` column declared NOT NULL renders as `  id INTEGER PRIMARY KEY NOT NULL` |
| SchemaSql.ImplicitKeyColumnEndsInNull | src/database.ts:118-119 | as written, a column whose foreign key has an implicit parent key ends in `("null")` |
| SchemaSql.TableBlock | src/database.ts:101-133 | one table's comment, CREATE TABLE and CREATE INDEX lines and a blank line; its place in the text is stated by SchemaSql.SchemaTextHasBlock and SchemaSql.SchemaTextSnoc |
| SchemaSql.SchemaTextHasBlock | src/database.ts:97-135 | each table contributes exactly its own block, in list order |
| SchemaSql.SchemaTextSnoc | src/database.ts:100-134 | one more table appends its block to the text |
| DatabaseAdapter.IsReadStatement | src/database.ts:142 | the read test `/^\s*(SELECT\|PRAGMA\|EXPLAIN\|WITH)\b/i`; stated by DatabaseAdapter.ReadStatementInitial, DatabaseAdapter.WordBoundaryRequired and DatabaseAdapter.ReadStatementIgnoresCase |
| DatabaseAdapter.ReadStatementInitial | src/database.ts:142 | a statement is read-only only if its first non-blank letter is S, P, E or W, in either case |
| DatabaseAdapter.WordBoundaryRequired | src/database.ts:142 | a keyword followed by a word character (`SELECTED`, `WITHOUT`) does not make a read |
| DatabaseAdapter.ReadStatementIgnoresCase | src/database.ts:142 | the read test gives the same answer for a statement and its upper-case form |
| DatabaseAdapter.ReadResult | src/database.ts:145-154 | the read path reports 0 affected rows, with the first result set's columns and values, or none |
| DatabaseAdapter.CsvImport | src/database.ts:265-291 | a successful CSV import counts the data lines, every parsed line but the header |
| DatabaseAdapter.JsonImport | src/database.ts:294-320 | a successful JSON import counts the objects |
| DatabaseAdapter.Database.constructor | src/database.ts:8-14 | a new adapter is closed and clean |
| DatabaseAdapter.Database.Open | src/database.ts:18-25 | `open` loads the file's bytes as the database |
| DatabaseAdapter.Database.Close | src/database.ts:27-33 | `close` flushes exactly when dirty, then drops the handle, so `conn` fails with "Database not open" |
| DatabaseAdapter.Database.Flush | src/database.ts:35-40 | `flush` writes the image to the file and clears `dirty`; nothing when closed |
| DatabaseAdapter.Database.Conn | src/database.ts:42-45 | `conn` is the open database, or the Error "Database not open" |
| DatabaseAdapter.Database.RunWrite | src/database.ts:157-161 | a write runs, then on success is marked dirty and flushed, so the file equals the image; a throwing run leaves file and flag as they were |
| DatabaseAdapter.Database.ExecuteQuery | src/database.ts:140-163 | reads return the first result set with 0 affected rows, leaving flag and file alone; writes return empty columns and values with the change count, and are flushed |
| DatabaseAdapter.Database.GetTables | src/database.ts:49-66 | fails with "Database not open" when closed; otherwise one entry per engine table, with its name, kind and row count |
| DatabaseAdapter.Database.GetSchema | src/database.ts:68-95 | fails with "Database not open" when closed; otherwise the table's `table_info` columns and one index per `index_list` row with its name, uniqueness and key columns |
| DatabaseAdapter.Database.GetTableData | src/database.ts:167-198 | NotOpen when closed; the count's error when the count throws; otherwise the page query's error when it throws, and when it returns, Ok with the row count (0 for an empty count result) and the page at offset `page * pageSize` in the requested order |
| DatabaseAdapter.Database.UpdateRow | src/database.ts:202-210 | binds the value coerced for the column's type, then the rowid, and is flushed on success |
| DatabaseAdapter.Database.InsertRow | src/database.ts:212-226 | inserts the object's keys with each value coerced for the same-named column (TEXT if none), and is flushed on success |
| DatabaseAdapter.Database.DeleteRows | src/database.ts:228-233 | one DELETE binding every rowid, flushed on success |
| DatabaseAdapter.Database.ExportCsv | src/database.ts:237-250 | the empty text without a result set; otherwise exactly `Csv.ExportText` of the first result set (header line, then one escaped line per row), which the CSV reader turns back into header and rows whenever no field holds an unquoted `\r` and the last row is not one empty field |
| DatabaseAdapter.Database.InsertInTransaction | src/database.ts:272-291 | the loop ends as `Transaction` does: on success marked dirty and flushed; on failure rolled back, not marked, not flushed |
| DatabaseAdapter.Database.ImportCsv | src/database.ts:265-292 | fewer than two parsed lines return 0 and touch nothing; otherwise the data lines are imported in one transaction |
| DatabaseAdapter.Database.ImportJson | src/database.ts:294-321 | an empty array returns 0 and touches nothing; otherwise every object is imported in one transaction |
| DatabaseAdapter.Database.AppendTableBlock | src/database.ts:101-133 | one pass of the table loop appends exactly that table's banner, CREATE statement (references rendered as written), index lines and blank line, with the foreign keys gathered into a map, last row per column winning |
| DatabaseAdapter.Database.GetSchemaSql | src/database.ts:97-136 | the accumulated text is the blocks of all tables in list order, with references rendered as written |
| Session.Remember | src/editorProvider.ts:99-100 | the new entry goes first, the old entries follow in order, and the oldest are dropped beyond 100 |
| Session.FindEntry | src/editorProvider.ts:256 | the index of the first entry with the id, or none when no entry has it (a `Types.FirstWithKey` search) |
| Session.TogglePin | src/editorProvider.ts:255-257 | pinning keeps the history's length |
| Session.TogglePinChangesOnlyFirstMatch | src/editorProvider.ts:256-257 | only `pinned` of the first matching entry flips; with no match nothing changes |
| Session.TogglePinTwice | src/editorProvider.ts:256-257 | pinning the same id twice restores the history |
| Session.Without | src/editorProvider.ts:243 | filtering never lengthens the list |
| Session.WithoutMembers | src/editorProvider.ts:243 | a query survives deletion exactly when it was there under another name |
| Session.WithoutTwice | src/editorProvider.ts:243 | deleting a name twice is deleting it once |
| Session.WithoutAbsent | src/editorProvider.ts:243 | deleting a name no query has changes nothing |
| Session.Saved | src/editorProvider.ts:226-227 | the saved query is last |
| Session.SavedReplacesByName | src/editorProvider.ts:226-227 | after saving, no other query has the name, and the other queries are those there before, in order |
| Session.DbState.constructor | src/editorProvider.ts:57 | a new state has no saved queries and no history |
| Session.DbState.Record | src/editorProvider.ts:99-100 | history bookkeeping keeps at most 100 entries |
| Session.DbState.SaveQuery | src/editorProvider.ts:220-227 | a cancelled or empty name changes nothing; otherwise the query replaces any of that name and goes last |
| Session.DbState.DeleteSavedQuery | src/editorProvider.ts:242-243 | removes every query with the name |
| Session.DbState.PinResult | src/editorProvider.ts:255-257 | toggles the pin of the first matching entry |
| Session.RunAndRecord | src/editorProvider.ts:90-99 | the reply and the database's new state are those of `executeQuery` (a read runs through `exec` without marking or flushing, a write through `run` with a flush); a query that returns adds an unpinned entry counting its result rows at the front; one that throws adds nothing |
| Session.StateStore.constructor | src/editorProvider.ts:13 | the store starts empty |
| Session.StateStore.StateFor | src/editorProvider.ts:56-59 | a path's state is created empty on first open and the same object afterwards |
| Webview.Attr | src/webview/main.ts:33-35 | the four replacements, `&` first; stated by Webview.AttrHasNoMarkup, Webview.AttrIsSinglePass and Webview.AttrRoundTrip |
| Webview.AttrHasNoMarkup | src/webview/main.ts:33-35 | the escaped text has no raw `"`, `<` or `>` |
| Webview.AttrIsSinglePass | src/webview/main.ts:33-35 | because `&` goes first, the chain escapes each character exactly once |
| Webview.AttrRoundTrip | src/webview/main.ts:33-35 | decoding the escaped attribute gives back the text, so a loaded saved or past query is the stored SQL |
| Webview.TotalPages | src/webview/main.ts:231 | the page count is at least 1 and is the smallest page count that holds all rows |
| Webview.PagerView | src/webview/main.ts:230-236 | Prev is disabled exactly on page 0; Next is disabled exactly from the last page on |
| Webview.ParseCellEdit | src/webview/main.ts:350 | the value sent for an inline edit is either NULL or the raw text |
| Webview.ParseAddRow | src/webview/main.ts:512-513 | the value sent for an add-row input is either NULL or the trimmed text |
| Webview.ParseCellEditNull | src/webview/main.ts:350 | an edit is NULL exactly for "" and `null` in any letter case; anything else is sent as the raw text |
| Webview.ParseAddRowTrims | src/webview/main.ts:512-513 | add-row inputs are trimmed first, so padding does not matter and non-NULL values are sent trimmed |
| Webview.HistoryPreview | src/webview/main.ts:470 | a past query shows its first 120 characters, followed by "..." exactly when it is longer |
| Webview.Add | src/webview/main.ts:326 | checking a row adds its rowid and keeps the selection free of duplicates |
| Webview.Remove | src/webview/main.ts:326 | unchecking a row removes its rowid and nothing else |
| Webview.AddAllSelects | src/webview/main.ts:313-320 | select-all selects every shown row and keeps the rows selected before |
| Webview.RemoveAllDeselects | src/webview/main.ts:313-320 | deselect-all removes exactly the shown rows |
| Webview.ViewState.constructor | src/webview/main.ts:13-20 | the initial state: no table, page 0, no rows, no selection, unsorted, ascending |
| Webview.ViewState.SelectTable | src/webview/main.ts:106-127 | selecting a table resets page, sort and selection, and requests the schema and the first unsorted page |
| Webview.ViewState.OnTableData | src/webview/main.ts:55-60 | a page arriving sets page and row count and clears the selection |
| Webview.ViewState.PrevPage | src/webview/main.ts:202-214 | Prev moves back only past page 0 with a table selected, and never leaves the page range |
| Webview.ViewState.NextPage | src/webview/main.ts:216-228 | Next moves on only while a later page holds rows, and never leaves the page range |
| Webview.ViewState.ToggleSort | src/webview/main.ts:369-387 | the sorted column flips direction, another column sorts ascending, and the view returns to page 0 |
| Webview.ViewState.SetRowChecked | src/webview/main.ts:323-329 | a checkbox adds or removes its rowid; Delete is disabled exactly when nothing is selected |
| Webview.ViewState.SetAllChecked | src/webview/main.ts:313-320 | select-all applies each row checkbox in turn; Delete is disabled exactly when nothing is selected |
| Webview.ViewState.DeleteSelected | src/webview/main.ts:391-394 | Delete sends nothing with no row selected, otherwise the table and the selected rowids |
| LmAssist.OpeningLength | src/lmAssist.ts:49 | the opening match is non-empty exactly when the text opens with the fence and `sq` in either case; it then spans the fence, `sq`, an `l` if one follows and a newline if one follows that |
| LmAssist.StripOpening | src/lmAssist.ts:49 | the first `replace` keeps a suffix of the reply: it can only cut from the front |
| LmAssist.StripClosing | src/lmAssist.ts:50 | the second `replace` keeps a prefix of the text and cuts at most four characters from the end |
| LmAssist.StripFences | src/lmAssist.ts:48-51 | the returned text has no white space at either end |
| LmAssist.OpeningStripIsFencePrefix | src/lmAssist.ts:49 | at most seven leading characters are removed, and some are removed exactly when the text opens with the fence and `sq` in either case |
| LmAssist.BareFenceKept | src/lmAssist.ts:49 | a fence not followed by `sq` is not removed |
| LmAssist.SecondOpeningFenceKept | src/lmAssist.ts:49 | only one opening fence is removed |
| LmAssist.ClosingStripIsFenceSuffix | src/lmAssist.ts:50 | a final fence is removed together with one newline before it, if any; a text not ending in the fence is kept |
| LmAssist.UnfencedReplyIsTrimmed | src/lmAssist.ts:48-51 | a reply with no fence at either end is only trimmed |
| LmAssist.WrappedReplyGivesBody | src/lmAssist.ts:48-51 | a body wrapped in a `sql` fence comes back as the trimmed body |

## Left out

- The sql.js engine itself is not modelled. SQL semantics, the PRAGMA
  results and row storage are functions of the image (`SqlEngine.Engine`),
  and the PRAGMA rows are given already decoded.
- A failing PRAGMA or `sqlite_master` statement is not modelled. The
  introspection functions always return a list.
- WASM loading and file I/O (`open`, `flush`) are not modelled. A flush
  always succeeds and sets the file to the image.
- ROLLBACK is assumed to succeed and to restore the image as it was before
  BEGIN.
- Timing is left out. The `time` field of `QueryResult` and
  `performance.now()` are not modelled.
- JavaScript numbers are reals: no NaN, no infinities, no rounding, and no
  integers beyond 2^53. NaN from `Number()` is `None`.
- `Number()`, `String()` of a number, `new Date(...).toISOString()` and
  `toLocaleString()` are foreign and supplied as `JsRuntime.Runtime`.
- `toUpperCase` is modelled on ASCII letters only. This is exact for the
  read test of `executeQuery` (the `/i` flag folds only ASCII letters onto
  ASCII letters) and for the "NULL" test of the webview (no non-ASCII
  character upper-cases to N, U or L).
- Coercion.CastValue: the type test differs for any type name holding a
  character whose full Unicode upper case contains an ASCII letter. Examples
  are dotless `ı` (to `I`), `ŉ` (U+0149, to U+02BC then `N`), `ẗ` (U+1E97, to
  `T` then U+0308) and the ligatures U+FB00 to U+FB04 (to `FF`, `FI`, `FL`,
  `FFI`, `FFL`). Columns declared `ınteger` or `inẗ` take the INT branch in
  the source, and `ŉumeric` and `floaẗ` the REAL branch, but all four fall
  through to text in the model.
- SqlEngine.Lookup: a member inherited from `Object.prototype` is
  represented by its `String` text, supplied by the runtime. `castValue`
  gives that text (or the text coerced for the column) in every branch, so
  the bound value is the same, but the function object itself is not
  modelled.
- Strings are sequences of characters, not UTF-16 code units.
- `JSON.parse` of the imported file is not modelled. `ImportJson` takes the
  parsed array, and a non-array value is not modelled.
- Nested JSON values are not modelled, and neither is the key order of
  `Object.keys` (a `JsonObject` lists its keys in order).
- `exportJSON` is not modelled: it is a `JSON.stringify` of the rows.
- `getSchema`'s decoding of `PRAGMA table_info` rows is left to the engine.
- The VS Code host plumbing is not modelled: dialogs, the delete
  confirmation, `postMessage` routing, `buildHtml` and the nonce.
  `Session.RunAndRecord` receives the entry id and timestamp that
  `Date.now` and `Math.random` would give.
- The rest of the editor's message handlers are not modelled: they only
  forward to the adapter.
- Webview rendering is not modelled: DOM building, `esc`, event wiring,
  modals, toasts and the timed refresh after an insert.
- `Webview.ViewState.ToggleSort` requires a selected table. Sortable headers
  exist only after a table's grid was drawn, which the source asserts with
  `currentTable!`.
- `Webview.Unescape` decodes the four entities `attr` writes. A browser
  decodes more entities, but every `&` in `attr`'s output begins one of
  these four.
- The language-model calls of src/lmAssist.ts are not modelled: model
  selection, the request, the chunk stream and the error mapping.
- `Session.TogglePin` states only that the length is kept; what pinning
  changes is stated by `Session.TogglePinChangesOnlyFirstMatch`.
- `Session.Without` states only that the list does not grow; membership is
  stated by `Session.WithoutMembers`.
- Identifiers are interpolated into SQL between double quotes without
  escaping. The arity lemmas require names without `?`, and no
  injection-safety property is stated.

## Findings

| source | as written | input that shows it | evidently intended | confidence | as-written member | corrected member |
|---|---|---|---|---|---|---|
| src/database.ts:119 | the reference clause prints `("${fk.to}")`; when `PRAGMA foreign_key_list` gives `to` = NULL (a foreign key to the parent's primary key, declared without a column list) it renders `REFERENCES "parent"("null")` | a column declared `REFERENCES parent` with no parent column | render `REFERENCES "parent"` without a column list when the parent column is implicit | medium, not executed | SchemaSql.ImplicitKeyColumnEndsInNull | SchemaSql.ReferenceClauseDistinguishesImplicitKey |
