# OCR statement pipeline — a verified model

This project models the core of `main.py` from the OCR statement tool in Dafny. The tool reads OCR'd credit-card statements, one PDF per account, and joins each one to a database record. It appends one spreadsheet row per matching record to a spreadsheet named after the run date. The model covers five things:

- **Reference number.** The nine-digit reference number is taken from the file name (`find_refno`).
- **Statement fields.** The new balance, the statement closing date and the payment due date are taken from the decoded text (`find_parameters`). Each of the three regular expressions is written out as the leftmost-match scan Python's `re.search` performs, over ASCII text with ASCII case folding.
- **Report rows.** Report rows are built and appended to the day's table (`write_to_excel`). The table in memory is a class `ReportTable` whose `Append` method loops over the lookup rows. The file itself is a value: `Absent`, `Unreadable` or `Present(table)`.
- **The per-document step.** All three fields must be truthy before the lookup and the write happen (`process_pdf`). The output file name is built from the run date.
- **The batch driver.** The driver checks the input, filters names ending in `.pdf` case-insensitively, and processes the documents in walk order (`main`).

Modules, in dependency order:

- `Text` (`text.dfy`): character classes, case-insensitive label comparison, the leftmost search `FirstFrom`, the greedy run `SkipWhile`, and `Strip`.
- `Refno` (`refno.dfy`): `find_refno`.
- `Fields` (`fields.dfy`): `find_parameters`.
- `Report` (`report.dfy`): `write_to_excel`.
- `Pipeline` (`pipeline.dfy`): the run date and output name, `process_pdf`, and `main`.

Everything the program gets from outside is a parameter (`Pipeline.Env`, `PathKind`, `WalkDir`):

- the decoded text of each document;
- `os.path.basename` and `os.path.join`;
- the database lookup, for any reference number including None;
- the run date, one for the whole run (see "## Left out");
- whether saving the spreadsheet succeeds, one outcome for the whole run;
- what kind of path the input is (`os.path.exists`/`isfile`/`isdir`);
- the directories and file names of `os.walk`, in walk order.

Two details of the regular expressions:

- **Balance pattern.** Of the two alternatives `New Balance:|New balance`, the second alone decides the match. The `:` is not a word character, so `\b` holds after "new balance". It also cannot start an amount.
- **Due-date pattern.** Likewise, `[^\n]*` absorbs the colon of "Payment Due Date:".

The database lookup is modelled as the code behaves:

- **Query fails after connecting.** `execute_sql_query` catches the error and returns `[]` (main.py:61-63).
- **Connection fails.** If `pyodbc.connect` fails, `connection` is unbound in the `finally` at main.py:65. The cleanup raises, and that error escapes to the catch in `process_pdf` (main.py:155).
- **Credentials fail.** `get_connection_string` runs at main.py:144, before the query is called. Its error goes straight to the same catch.
- **The model's `Lookup`.** Both escaping errors are one case, so `Lookup` is `Rows(rows) | LookupRaised` (`QueryOutcome`, `EveryLookupIsAnOutcome`).
- **No reference number.** A None key is passed straight to the query (`MissingRefnoIsStillQueried`).

The batch methods below `RunBatch` receive the run's step as a ghost parameter. `DocStepImplements` proves that this step is `process_pdf`.

## Model

| member | source | states |
|---|---|---|
| Text.Lower | main.py:104 | `str.lower()` on ASCII: same length, each character folded |
| Text.IsDigit | main.py:34 | `\d`, restricted to ASCII: `0` to `9` (also the digits of the amount and of the date format at main.py:39) |
| Text.IsWordChar | main.py:39 | `\w` behind `\b`, restricted to ASCII: a letter, a digit or `_` |
| Text.IsSpace | main.py:44-45 | the ASCII characters `str.strip()` removes: space, tab, line feed, vertical tab, form feed, carriage return, and 0x1C to 0x1F |
| Text.LabelAt | main.py:39-41 | a literal of the pattern, compared under `re.IGNORECASE` with ASCII case folding, occurs at a position |
| Text.LowerChar | main.py:104 | ASCII case folding: an uppercase letter becomes the lowercase letter at the same place in the alphabet; every other character is unchanged |
| Text.LabelAtLower | main.py:39-41 | the case-insensitive comparison of `re.IGNORECASE` agrees with comparing the `str.lower()` of both sides |
| Text.FirstFrom | main.py:34 | the leftmost position in a range where a condition holds, or None exactly when there is none (the order in which `re.search` tries start positions) |
| Text.SkipWhile | main.py:39 | the greedy run end: every character before it satisfies the class, and the character at it does not (or it is the end) |
| Text.Strip | main.py:44 | `str.strip()`: a contiguous slice with only whitespace cut on either side; its ends are not whitespace; empty exactly when the input is all whitespace |
| Refno.RefnoAt | main.py:34 | `\d{9}` matches at a position: nine ASCII digits start there |
| Refno.FindRefno | main.py:33-35 | None exactly when no position starts nine digits; otherwise nine digits, taken at the leftmost such position |
| Refno.FirstRunIsResult | main.py:34-35 | the first position that starts nine digits determines the result, whatever follows |
| Refno.LongRunYieldsFirstNine | main.py:34 | a run of nine or more digits after a digit-free prefix yields its first nine digits |
| Refno.TwelveDigitName | main.py:34 | `123456789012.pdf` yields `123456789` |
| Refno.StatementFileName | main.py:33-35 | `250000001_stmt.pdf` yields `250000001` |
| Refno.EightDigitsAreNotEnough | main.py:35 | a name whose only digits are fewer than nine in one run yields None |
| Fields.BalanceLabelAt | main.py:39 | the label `new balance`, in any case, followed by `\b`: the end of the text or a character that is not a word character |
| Fields.AmountAt | main.py:39 | `\$[\d,]+\.\d{2}` matches at a position: `$`, the greedy digit-and-comma run (at least one), `.`, two digits |
| Fields.AmountEnd | main.py:39 | the matched amount is at least five characters long and lies within the text |
| Fields.AmountIsToken | main.py:39 | a matched amount is `$`, a non-empty run of digits and commas, `.`, and exactly two digits |
| Fields.AmountTokenAt | main.py:39 | conversely, such a token in the text is matched where it starts and ends where it ends |
| Fields.FindBalance | main.py:39 | Some exactly when some qualifying label (`new balance` followed by `\b`) has an amount after it; the value is an amount token; it is the first amount after the leftmost qualifying label |
| Fields.BalanceIs | main.py:43 | the leftmost label and the first amount after it determine the balance |
| Fields.BalanceAfterLabel | main.py:39 | any case variant of the label, then a gap with no `$` that starts with a non-word character, then an amount: the balance is that amount whatever follows |
| Fields.BalanceStopsAtTwoDecimals | main.py:39 | `New Balance: $1,234.567` yields `$1,234.56` |
| Fields.NextLineMatchAt | main.py:40-41 | `<label>[^\n]*\n(.+)` matches at a position: the label in any case, the rest of its line, a line feed, and a non-empty next line |
| Fields.LineEnd | main.py:40 | `[^\n]*` runs to the next line feed or the end of the text |
| Fields.NextLine | main.py:40 | the `(.+)` capture is non-empty, holds no line feed, and is the whole line after the label's line |
| Fields.FindLabelledLine | main.py:40-45 | Some exactly when some label occurrence has a non-empty next line; the value holds no line feed; it is the stripped next line of the leftmost such occurrence |
| Fields.LabelledLineIs | main.py:44-45 | the leftmost matching occurrence determines the date |
| Fields.LabelOnLastLine | main.py:40-41 | a label on the last line does not match at that occurrence |
| Fields.LabelBeforeEmptyLine | main.py:40-41 | a label whose next line is empty does not match at that occurrence |
| Fields.LabelOnlyOnLastLine | main.py:40-41 | when every label occurrence is on the last line, the date is None |
| Fields.LineEndIs | main.py:40 | a line with no line feed from `i` to `e`, ended by a line feed or the end of the text, ends at `e` |
| Fields.DateTextShape | main.py:40 | the pieces of a dated text (label, rest of line, line feed, next line, rest) sit where they were put |
| Fields.DateAfterLabel | main.py:40-45 | any case variant of a label, then the rest of its line, a line feed and a non-empty line: the date is that line, stripped |
| Fields.ClosingDateOnNextLine | main.py:40 | `Statement Closing Date\n03/15/2024` yields `03/15/2024` |
| Fields.FindParameters | main.py:38-47 | the three searches: the balance is an amount token; the dates hold no line feed; each date is present exactly when its label has a matching occurrence |
| Report.Fits | main.py:82-85 | a lookup row can be built against a table: it has at least two cells (else `row[1]` raises IndexError at line 83) and its built row of `|row| + 4` cells matches the column count (else the frame of line 85 raises ValueError) |
| Report.AllFit | main.py:80-85 | every lookup row fits, so the loop runs to its end without raising |
| Report.ReportRow | main.py:82-83 | a built row has four more cells than the lookup row |
| Report.RowShape | main.py:80-83 | a seven-cell lookup row becomes eleven cells: `'` + file number, cells 1..6 unchanged, cell 1 again, balance, closing date, due date |
| Report.ReportRows | main.py:80-86 | one report row per lookup row, in lookup order |
| Report.FitPrefix | main.py:85 | the length of the leading run of rows that fit; it covers all the rows exactly when every row fits |
| Report.ReportTable.Empty | main.py:74-78 | a new frame holds the fixed eleven-name header and no rows |
| Report.ReportTable.Load | main.py:71-72 | a frame read from the file holds its columns and rows |
| Report.ReportTable.Append | main.py:80-86 | the columns are unchanged; the rows are the old rows followed by the report rows of the lookup rows up to the first misfit; it succeeds exactly when every row fits |
| Report.Initial | main.py:71-78 | a missing file starts from the header with no rows; an existing one from its own table |
| Report.Written | main.py:69-94 | the file after `write_to_excel`, as a function: an unreadable file (read error at line 72) or any misfit among the rows raises before the save and leaves it as it was, caught at line 93; so does a save (line 89) that fails before it opens the file; otherwise it holds the starting table's rows followed by one report row per lookup row |
| Report.WriteToExcel | main.py:69-94 | the file after the write is `Written`: an unreadable file, a misfit or a save that fails before opening the file leaves the file as it was, and otherwise the table is saved whole |
| Report.WriteKeepsPriorRows | main.py:80-89 | a write never changes, drops or reorders the stored rows and keeps the columns |
| Report.WriteAppendsOneRowEach | main.py:71-89 | N prior rows and M fitting lookup rows give N + M rows: the prior ones, then one report row per lookup row in order |
| Report.ExtendsTransitive | main.py:71-89 | extending an extension of a file extends the file |
| Report.WriteExtends | main.py:69-94 | every write, whether it succeeds or fails before the save opens the file, only extends the file |
| Report.FailedWriteChangesNothing | main.py:93-94 | an unreadable file, a row that does not fit, or a save that fails before opening the file leaves the file unchanged |
| Report.WidthMismatchChangesNothing | main.py:85 | with at least one lookup row, when exactly one of the two widths is off (the table is not eleven columns wide, or a lookup row is not seven cells), the write is a no-op |
| Report.EmptyLookupAddsNoRows | main.py:74-89 | no lookup rows: an existing table is saved unchanged, a missing file becomes a header-only table |
| Report.NoDeduplication | main.py:80-89 | writing the same rows twice stores them twice |
| Pipeline.Padded | main.py:146 | a zero-padded number has exactly the given number of digits |
| Pipeline.PaddedValue | main.py:146 | reading a padded number back gives the number |
| Pipeline.FormatDate | main.py:146 | `%m-%d-%Y` is ten characters: two digits, `-`, two digits, `-`, four digits |
| Pipeline.OutputName | main.py:147 | the output name has fixed length around the date |
| Pipeline.OutputNameRoundTrip | main.py:146-147 | the run date can be read back from the output name |
| Pipeline.SameFileExactlyOnSameDate | main.py:146-147 | two runs share an output file exactly when they run on the same date |
| Pipeline.Truthy | main.py:143 | Python truthiness of an extracted field: it is not None and not the empty string |
| Pipeline.Ready | main.py:143 | the gate `new_balance and closing_date and due_date`: all three fields truthy |
| Pipeline.QueryOutcome | main.py:50-66 | how `get_connection_string` (line 144) and `execute_sql_query` end: the error escapes exactly when reading the credentials or connecting fails, the latter because `close()` in the `finally` meets an unbound `connection`; a query failing after connecting gives no rows; otherwise its rows |
| Pipeline.EveryLookupIsAnOutcome | main.py:50-66 | every `Lookup` value is one of those endings, and the escaping error arises from both raising paths, so merging them into one case loses nothing |
| Pipeline.Process | main.py:134-156 | no lookup or write exactly when some field is not truthy; the key is `find_refno` of the base name; the lookup failure is caught exactly when it raises; the target is the dated name in the output folder; only a write changes the file |
| Pipeline.ProcessPdf | main.py:134-156 | the outcome and the file after it are those of `Process` |
| Pipeline.ProcessWritesLookupRows | main.py:143-148 | a document that passes the gate and gets rows writes those rows, with its own fields, to the day's file |
| Pipeline.MissingRefnoIsStillQueried | main.py:137-145 | a file name without a reference number still passes to the lookup, which is queried with None |
| Pipeline.TargetDependsOnlyOnDate | main.py:146-147 | the target file depends on the output folder and the date alone: two documents processed on the same date that reach the writer target the same file |
| Pipeline.BlankClosingLineSkipsDocument | main.py:143 | a closing-date line of only whitespace strips to empty, so the document is neither looked up nor written |
| Pipeline.IsPdfName | main.py:118 | the filter `name.lower().endswith('.pdf')`, also applied to a single input file at line 104 |
| Pipeline.PdfNameIsLabel | main.py:118 | a name passes the filter exactly when its last four characters are `.pdf` in any case |
| Pipeline.UpperCasePdfName | main.py:118 | `STMT.PDF` passes the filter and `stmt.pdf.txt` does not |
| Pipeline.PdfPathsIn | main.py:117-120 | a directory yields at most one PDF path per file name |
| Pipeline.PdfPathsInMembers | main.py:117-120 | a path is among a directory's PDF paths exactly when it is the join of the directory and one of its PDF names |
| Pipeline.PdfPaths | main.py:116-120 | the PDF paths of the whole walk: each directory's in walk order, after the earlier directories' |
| Pipeline.PdfPathsMembers | main.py:116-120 | a path is among the walk's PDF paths exactly when it is the join of some directory and one of its PDF names |
| Pipeline.RunDocs | main.py:116-122 | every document is processed and reported, in order, each seeing the file the previous one left |
| Pipeline.DocStepIs | main.py:122 | the run's step is `process_pdf` |
| Pipeline.RunDocsSnoc | main.py:116-122 | one more document extends a run by its own report and step |
| Pipeline.RunDocsExtend | main.py:122 | a run extended by one processed document gives that document's report after the earlier ones |
| Pipeline.RunDocsAppend | main.py:116-122 | running two parts one after the other is running their concatenation |
| Pipeline.ProcessExtends | main.py:134-156 | one document only extends the output file |
| Pipeline.RunExtends | main.py:116-122 | steps that each extend the file extend it over a whole run |
| Pipeline.BatchOnlyAppends | main.py:116-122 | over a whole run, rows already in the file are never changed, removed or reordered; an unreadable file stays as it is |
| Pipeline.RunTwoReports | main.py:116-122 | a two-document run reports the first and then the second, the second seeing the file the first left |
| Pipeline.TwoDocumentsInOrder | main.py:116-122 | two statements processed in order leave the prior rows, then the first's report rows, then the second's |
| Pipeline.SameDocumentTwiceDuplicates | main.py:80-89 | the same statement processed twice stores its rows twice |
| Pipeline.TwoPdfNamesInFolder | main.py:116-120 | a folder holding two PDF names yields their two paths in the folder's order |
| Pipeline.ScenarioWalk | main.py:116-120 | a folder holding `250000001_stmt.pdf` and `garbage.pdf` yields both paths, in that order |
| Pipeline.FruitfulThenIncomplete | main.py:116-156 | a statement with all three fields and fitting rows, then a document lacking a field: both are reported in order, the first as written and the second as incomplete, and the file gains the first one's report rows alone |
| Pipeline.StatementBesideGarbage | main.py:116-156 | a statement beside a file without fields: `250000001_stmt.pdf` with all three fields, then `garbage.pdf` without; the statement is looked up by `250000001` and written to the day's file, the other is skipped, and the file gains the statement's report rows alone |
| Pipeline.NoPdfPathsInExactly | main.py:117-118 | a directory yields no PDF path exactly when none of its names ends in `.pdf` case-insensitively |
| Pipeline.NoPdfPathsExactly | main.py:114-125 | the walk yields no PDF path exactly when no file name anywhere in it is a PDF name |
| Pipeline.PdfPathsInSnoc | main.py:117-120 | one more file name adds its joined path exactly when it is a PDF name |
| Pipeline.PdfPathsSnoc | main.py:116-120 | one more directory adds its PDF paths after the earlier ones |
| Pipeline.DocStepImplements | main.py:122 | the run's step agrees with `process_pdf` everywhere |
| Pipeline.ProcessNext | main.py:122 | processing a document continues the run by exactly that document |
| Pipeline.VisitedPaths | main.py:117-120 | after one more file name, the run's paths grow by its joined path exactly when it is a PDF name |
| Pipeline.VisitName | main.py:117-122 | one file name: a PDF is processed as the next document, any other name is passed over |
| Pipeline.RunDirectory | main.py:117-122 | one directory's PDF files processed in order; the flag is set exactly when there was one |
| Pipeline.RunWalk | main.py:114-125 | the whole walk processed in order; `pdf_files_found` exactly when some PDF path exists |
| Pipeline.RunBatch | main.py:97-131 | missing input or non-PDF file: no document, folder not opened, file unchanged; a PDF file: processed alone; a directory: its PDF files in walk order, "no PDF" exactly when there are none; the folder is opened otherwise |

## Left out

- The desktop interface (`gui.py`), its background thread, and the `__main__` block with `run_from_gui` are not part of this model. They are user-interface code and thin wrappers.
- `get_connection_string` (reading credentials from a shelve store) is left out. Its failure is folded into `LookupRaised`.
- `extract_text_from_pdf` is the `textOf` parameter. If `fitz.open` fails, the text is empty. If reading a later page fails, the text of the pages before it is returned and `doc.close()` is skipped (main.py:25-30). Both cases fall under the same unconstrained parameter.
- `execute_sql_query` is the `lookup` parameter: rows, or an error that escapes. The SQL text, the driver and the release of the connection are left out.
- The spreadsheet codec is left out. This covers `read_excel(dtype=str)` including how it renders empty cells, `to_excel`, openpyxl, and database values that are not text.
- Operating-system calls are parameters: `os.path.exists`/`isfile`/`isdir`, `os.walk` and its order, `os.path.basename`/`join`, and `datetime.now`.
- `os.startfile` is modelled only as the decision to open the folder (`folderOpened`). Its own failure is caught and changes nothing.
- All `print` logging is left out, including the advisory check that the output file exists after a write (main.py:150-153).
- Unicode behaviour of `\d`, `\b`, `IGNORECASE`, `str.strip()` and `str.lower()` is reduced to ASCII.
- Pipeline.Process: requires a run date whose year has four digits (1000 to 9999), where `%Y` renders exactly four digits. Earlier years are not modelled.
- Report.Written: `saveWorks == false` stands for a save that fails before `to_excel` opens the file for writing (a locked file, a missing folder). A save that fails after the file is opened (truncated on opening, then, for example, a control character the spreadsheet writer rejects, or a full disk) leaves a truncated or partly written file. That case is not modelled, and `WriteExtends`, `FailedWriteChangesNothing` and `BatchOnlyAppends` do not cover it.
- Pipeline.Env: the run date, the save outcome and the database lookup are fixed once per run. The source reads the clock for each document (main.py:146), and each `to_excel` (main.py:89) succeeds or fails on its own. It also reads the credentials and opens a new connection for each document (main.py:144-145, 52), so the same key may raise for one document and give rows for a later one, or give different rows if the database changes during the run. The model's `lookup` is one function of the key, so two documents with the same key get the same answer; `SameDocumentTwiceDuplicates` relies on this for its second query. The run lemmas (`RunDocs`, `BatchOnlyAppends`, `TwoDocumentsInOrder`, `SameDocumentTwiceDuplicates`, `FruitfulThenIncomplete`, `StatementBesideGarbage`) therefore cover runs that stay within one calendar day and whose saves all succeed or all fail. A run that crosses midnight writes its later documents to a second file, which the single threaded `Stored` does not express. Neither does a failed save followed by a successful one, where one document's rows are lost.
- Concurrency is left out. Every click of "Start Processing" starts a new background thread running a batch (gui.py:17-26, 55), and nothing stops a second click while a batch runs. Two batches then read (main.py:72) and save (main.py:89) the same day's file in interleaved order, so rows can be lost. The single threaded `Stored` does not express that interleaved read-modify-write.
