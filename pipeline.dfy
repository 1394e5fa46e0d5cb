/** The per-document pipeline (`process_pdf`) and the batch driver (`main`).
    Everything the source obtains from its surroundings is a parameter: the
    decoded text of each document, `os.path.basename` and `os.path.join`, the
    database lookup, the run date, whether saving the spreadsheet succeeds,
    what kind of path the input is and the order of the directory walk. */
module Pipeline {
  import opened Text
  import opened Refno
  import opened Fields
  import opened Report

  // ----- the run date and the output file name -----

  /** The run date, as `datetime.now()` gives it. */
  datatype Date = Date(month: nat, day: nat, year: nat)

  /** Dates whose `%m-%d-%Y` rendering has two, two and four digits. */
  predicate ValidDate(d: Date) {
    1 <= d.month <= 12 && 1 <= d.day <= 31 && 1000 <= d.year <= 9999
  }

  function Pow10(w: nat): (p: nat)
    ensures p >= 1
  {
    if w == 0 then 1 else 10 * Pow10(w - 1)
  }

  function DigitChar(n: nat): (c: char)
    requires n < 10
    ensures IsDigit(c)
  {
    ('0' as int + n) as char
  }

  predicate AllDigits(s: string) {
    forall k :: 0 <= k < |s| ==> IsDigit(s[k])
  }

  /** The decimal value of a digit string. */
  function DigitsValue(s: string): nat
    requires AllDigits(s)
  {
    if s == [] then 0 else 10 * DigitsValue(s[..|s| - 1]) + (s[|s| - 1] as int - '0' as int)
  }

  /** `n` in exactly `w` decimal digits, zero-padded on the left. */
  function Padded(n: nat, w: nat): (s: string)
    requires n < Pow10(w)
    ensures |s| == w && AllDigits(s)
  {
    if w == 0 then [] else Padded(n / 10, w - 1) + [DigitChar(n % 10)]
  }

  /** Reading a padded number back gives the number. */
  lemma {:induction false} PaddedValue(n: nat, w: nat)
    requires n < Pow10(w)
    ensures DigitsValue(Padded(n, w)) == n
  {
    if w > 0 {
      var s := Padded(n, w);
      assert s[..|s| - 1] == Padded(n / 10, w - 1);
      PaddedValue(n / 10, w - 1);
    }
  }

  /** `strftime('%m-%d-%Y')`. */
  function FormatDate(d: Date): (s: string)
    requires ValidDate(d)
    ensures |s| == 10 && s[2] == '-' && s[5] == '-'
    ensures AllDigits(s[..2]) && AllDigits(s[3..5]) && AllDigits(s[6..])
  {
    var s := Padded(d.month, 2) + "-" + Padded(d.day, 2) + "-" + Padded(d.year, 4);
    assert s[..2] == Padded(d.month, 2) && s[3..5] == Padded(d.day, 2) && s[6..] == Padded(d.year, 4);
    s
  }

  function ParseDate(s: string): Option<Date> {
    if |s| == 10 && s[2] == '-' && s[5] == '-' && AllDigits(s[..2]) && AllDigits(s[3..5]) && AllDigits(s[6..])
    then Some(Date(DigitsValue(s[..2]), DigitsValue(s[3..5]), DigitsValue(s[6..])))
    else None
  }

  const OutputPrefix: string := "ocr_statement_output_"
  const OutputSuffix: string := ".xlsx"

  /** The name of the spreadsheet a run writes: fixed text around the run date. */
  function OutputName(d: Date): (name: string)
    requires ValidDate(d)
    ensures |name| == |OutputPrefix| + 10 + |OutputSuffix|
  {
    OutputPrefix + FormatDate(d) + OutputSuffix
  }

  /** Recovers the run date from an output file name. */
  function ParseOutputName(name: string): Option<Date> {
    if |name| == |OutputPrefix| + 10 + |OutputSuffix| &&
       name[..|OutputPrefix|] == OutputPrefix && name[|name| - |OutputSuffix|..] == OutputSuffix
    then ParseDate(name[|OutputPrefix|..|name| - |OutputSuffix|])
    else None
  }

  /** The output name determines the run date it was made from. */
  lemma OutputNameRoundTrip(d: Date)
    requires ValidDate(d)
    ensures ParseOutputName(OutputName(d)) == Some(d)
  {
    var name := OutputName(d);
    var s := FormatDate(d);
    assert name[..|OutputPrefix|] == OutputPrefix;
    assert name[|name| - |OutputSuffix|..] == OutputSuffix;
    assert name[|OutputPrefix|..|name| - |OutputSuffix|] == s;
    assert s[..2] == Padded(d.month, 2) && s[3..5] == Padded(d.day, 2) && s[6..] == Padded(d.year, 4);
    PaddedValue(d.month, 2);
    PaddedValue(d.day, 2);
    PaddedValue(d.year, 4);
  }

  /** One spreadsheet per run date: two runs share an output file exactly
      when they run on the same date. */
  lemma SameFileExactlyOnSameDate(d1: Date, d2: Date)
    requires ValidDate(d1) && ValidDate(d2)
    ensures OutputName(d1) == OutputName(d2) <==> d1 == d2
  {
    OutputNameRoundTrip(d1);
    OutputNameRoundTrip(d2);
  }

  // ----- one document -----

  /** Python truthiness of an extracted field: present and not empty. */
  predicate Truthy(o: Option<string>) {
    o.Some? && o.value != []
  }

  /** The gate before any database access: all three fields truthy. */
  predicate Ready(x: Extracted) {
    Truthy(x.balance) && Truthy(x.closing) && Truthy(x.due)
  }

  function FieldsOf(x: Extracted): StatementFields
    requires Ready(x)
  {
    StatementFields(x.balance.value, x.closing.value, x.due.value)
  }

  /** The database lookup: the matching rows (empty when the query itself
      fails after connecting), or an exception on the way that reaches the
      document's catch: reading the credentials fails before the query
      starts, or connecting fails and the cleanup then raises. */
  datatype Lookup = Rows(rows: seq<seq<string>>) | LookupRaised

  /** How `pyodbc.connect` ends: connected, and then the query gives its
      rows or fails (None), or the connection itself fails. */
  datatype Connection = Connected(query: Option<seq<seq<string>>>) | ConnectFailed

  /** `get_connection_string` followed by `execute_sql_query`. A failure to
      read the credentials raises before the query starts. A failed connect
      leaves `connection` unbound, so the `close()` in the `finally` raises.
      A query that fails after connecting is caught and gives no rows. */
  function QueryOutcome(credentialsRead: bool, c: Connection): (r: Lookup)
    ensures r.LookupRaised? <==> !credentialsRead || c.ConnectFailed?
    ensures credentialsRead && c.Connected? ==> r.Rows? && (c.query.None? ==> r.rows == [])
    ensures credentialsRead && c.Connected? && c.query.Some? ==> r == Rows(c.query.value)
  {
    if !credentialsRead then LookupRaised
    else match c
      case ConnectFailed => LookupRaised
      case Connected(q) => if q.None? then Rows([]) else Rows(q.value)
  }

  /** `Lookup` loses nothing and adds nothing: every lookup outcome is one
      way `get_connection_string` and `execute_sql_query` can end, and an
      escaping error is either of the two raising paths. */
  lemma EveryLookupIsAnOutcome(l: Lookup)
    ensures exists credentialsRead: bool, c: Connection :: QueryOutcome(credentialsRead, c) == l
    ensures l.LookupRaised? ==> QueryOutcome(false, Connected(None)) == l && QueryOutcome(true, ConnectFailed) == l
  {
    if l.LookupRaised? {
      assert QueryOutcome(false, ConnectFailed) == l;
    } else {
      assert QueryOutcome(true, Connected(Some(l.rows))) == l;
    }
  }

  datatype Env = Env(
    textOf: string -> string,           // the decoded text of a document; empty when decoding fails
    baseName: string -> string,         // os.path.basename
    join: (string, string) -> string,   // os.path.join
    lookup: Option<string> -> Lookup,   // the query for a reference number (None included), one for the whole run
    today: Date,                        // the run date, one for the whole run
    saveWorks: bool)                    // whether saving the spreadsheet succeeds, one for the whole run

  /** What happened to one document. */
  datatype DocOutcome =
    | Incomplete(fields: Extracted)                // a field was missing or empty: no lookup, no write
    | LookupFailed(key: Option<string>)            // the lookup raised; caught at the document boundary
    | WriteAttempted(key: Option<string>, target: string)  // the writer ran (and swallowed its own errors)

  datatype Step = Step(outcome: DocOutcome, after: Stored)

  /** The effect of processing the document at `path` on the output file. */
  function Process(env: Env, folder: string, path: string, stored: Stored): (r: Step)
    requires ValidDate(env.today)
    ensures var x := FindParameters(env.textOf(path));
      var key := FindRefno(env.baseName(path));
      && (r.outcome.Incomplete? <==> !Ready(x))
      && (!r.outcome.Incomplete? ==> r.outcome.key == key)
      && (r.outcome.LookupFailed? <==> Ready(x) && env.lookup(key).LookupRaised?)
      && (r.outcome.WriteAttempted? ==> r.outcome.target == env.join(folder, OutputName(env.today)))
      && (!r.outcome.WriteAttempted? ==> r.after == stored)
  {
    var x := FindParameters(env.textOf(path));
    var key := FindRefno(env.baseName(path));
    var result := env.lookup(key);
    if !Ready(x) then Step(Incomplete(x), stored)
    else if result.LookupRaised? then Step(LookupFailed(key), stored)
    else Step(WriteAttempted(key, env.join(folder, OutputName(env.today))),
              Written(stored, result.rows, FieldsOf(x), env.saveWorks))
  }

  /** `process_pdf`: decode, take the reference number from the file name,
      extract the fields, and only when all three are truthy look up the
      rows and write them to the day's spreadsheet. */
  method ProcessPdf(env: Env, folder: string, path: string, stored: Stored)
    returns (outcome: DocOutcome, after: Stored)
    requires ValidDate(env.today)
    ensures Step(outcome, after) == Process(env, folder, path, stored)
  {
    var text := env.textOf(path);
    var key := FindRefno(env.baseName(path));
    var x := FindParameters(text);
    if !Ready(x) {
      return Incomplete(x), stored;
    }
    var result := env.lookup(key);
    match result {
      case LookupRaised =>
        outcome, after := LookupFailed(key), stored;
      case Rows(rows) =>
        var target := env.join(folder, OutputName(env.today));
        after := WriteToExcel(stored, rows, FieldsOf(x), env.saveWorks);
        outcome := WriteAttempted(key, target);
    }
  }

  /** A document that passes the gate and gets rows from the lookup has
      those rows written, with its own three fields, to the day's file. */
  lemma ProcessWritesLookupRows(env: Env, folder: string, path: string, stored: Stored)
    requires ValidDate(env.today)
    requires Ready(FindParameters(env.textOf(path)))
    requires env.lookup(FindRefno(env.baseName(path))).Rows?
    ensures var x := FindParameters(env.textOf(path));
      var rows := env.lookup(FindRefno(env.baseName(path))).rows;
      Process(env, folder, path, stored).after == Written(stored, rows, FieldsOf(x), env.saveWorks)
  {
  }

  /** A file name without a reference number does not stop the lookup: it
      is queried with None. */
  lemma MissingRefnoIsStillQueried(env: Env, folder: string, path: string, stored: Stored)
    requires ValidDate(env.today)
    requires FindRefno(env.baseName(path)) == None
    requires Ready(FindParameters(env.textOf(path)))
    ensures var r := Process(env, folder, path, stored);
      !r.outcome.Incomplete? && r.outcome.key == None
  {
  }

  /** The target file depends on the output folder and the date alone, not
      on the document or on the file's state: two documents processed on the
      same date that reach the writer target the same file. */
  lemma TargetDependsOnlyOnDate(env: Env, folder: string, p1: string, p2: string, s1: Stored, s2: Stored)
    requires ValidDate(env.today)
    requires Process(env, folder, p1, s1).outcome.WriteAttempted?
    requires Process(env, folder, p2, s2).outcome.WriteAttempted?
    ensures Process(env, folder, p1, s1).outcome.target == Process(env, folder, p2, s2).outcome.target
  {
  }

  /** A closing-date line holding only whitespace strips to the empty
      string, which fails the gate: the document is neither looked up nor
      written. */
  lemma BlankClosingLineSkipsDocument(env: Env, folder: string, path: string, stored: Stored, p: nat)
    requires ValidDate(env.today)
    requires LeftmostNextLineMatch(env.textOf(path), ClosingLabel, p)
    requires forall k :: 0 <= k < |NextLine(env.textOf(path), ClosingLabel, p)| ==>
      IsSpace(NextLine(env.textOf(path), ClosingLabel, p)[k])
    ensures Process(env, folder, path, stored) == Step(Incomplete(FindParameters(env.textOf(path))), stored)
  {
    LabelledLineIs(env.textOf(path), ClosingLabel, p);
  }

  // ----- the batch -----

  /** What `os.path.exists`, `isfile` and `isdir` say about the input path. */
  datatype PathKind = Missing | RegularFile | Directory | OtherKind

  /** One directory of the walk: its path and its file names, in walk order. */
  datatype WalkDir = WalkDir(dirpath: string, filenames: seq<string>)

  datatype Status = InputMissing | NotPdf | NoPdfFound | Completed

  datatype DocReport = DocReport(path: string, outcome: DocOutcome)

  /** The result of a run: how it ended, one report per processed document,
      and whether the output folder was opened at the end. */
  datatype Batch = Batch(status: Status, reports: seq<DocReport>, folderOpened: bool)

  /** The document filter: the lowercased name ends in `.pdf`. */
  predicate IsPdfName(s: string) {
    EndsWith(Lower(s), ".pdf")
  }

  /** The filter's `.lower().endswith('.pdf')` is the same case-insensitive
      comparison the field patterns make: the last four characters are
      `.pdf` in any case. */
  lemma PdfNameIsLabel(s: string)
    ensures IsPdfName(s) <==> |s| >= 4 && LabelAt(s, ".pdf", |s| - 4)
  {
    assert Lower(".pdf") == ".pdf" by {
      assert LowerChar('.') == '.' && LowerChar('p') == 'p' && LowerChar('d') == 'd' && LowerChar('f') == 'f';
    }
    if |s| >= 4 {
      LabelAtLower(s, ".pdf", |s| - 4);
      assert Lower(s)[|s| - 4..|s|] == Lower(s)[|Lower(s)| - 4..];
    }
  }

  /** Mixed case passes the filter. */
  lemma UpperCasePdfName()
    ensures IsPdfName("STMT.PDF") && !IsPdfName("stmt.pdf.txt")
  {
    assert LabelAt("STMT.PDF", ".pdf", 4);
    PdfNameByLabel("STMT.PDF");
    assert !LabelAt("stmt.pdf.txt", ".pdf", 8) by {
      assert LowerChar("stmt.pdf.txt"[9]) != LowerChar(".pdf"[1]);
    }
    PdfNameIsLabel("stmt.pdf.txt");
  }

  lemma PdfNameByLabel(s: string)
    requires |s| >= 4 && LabelAt(s, ".pdf", |s| - 4)
    ensures IsPdfName(s)
  {
    PdfNameIsLabel(s);
  }

  /** The paths of the PDF files of one directory, in walk order. */
  function PdfPathsIn(env: Env, dirpath: string, names: seq<string>): (paths: seq<string>)
    ensures |paths| <= |names|
  {
    if names == [] then []
    else
      var name := names[|names| - 1];
      PdfPathsIn(env, dirpath, names[..|names| - 1]) + (if IsPdfName(name) then [env.join(dirpath, name)] else [])
  }

  /** The paths of the PDF files of the whole walk, in walk order. */
  function PdfPaths(env: Env, walk: seq<WalkDir>): seq<string> {
    if walk == [] then []
    else
      var d := walk[|walk| - 1];
      PdfPaths(env, walk[..|walk| - 1]) + PdfPathsIn(env, d.dirpath, d.filenames)
  }

  datatype Progress = Progress(reports: seq<DocReport>, store: Stored)

  /** Processing `paths` one after another with `step`, each document seeing
      the file the previous one left. Every document is processed and
      reported, in order, whatever happened to the ones before it. */
  function RunDocs(step: (string, Stored) -> Step, paths: seq<string>, stored: Stored): (p: Progress)
    ensures |p.reports| == |paths|
    ensures forall k :: 0 <= k < |paths| ==> p.reports[k].path == paths[k]
  {
    if paths == [] then Progress([], stored)
    else
      var prev := RunDocs(step, paths[..|paths| - 1], stored);
      var last := step(paths[|paths| - 1], prev.store);
      Progress(prev.reports + [DocReport(paths[|paths| - 1], last.outcome)], last.after)
  }

  /** The step of a run: `process_pdf` on one document against the file as it stands. */
  function DocStep(env: Env, folder: string): (string, Stored) -> Step
    requires ValidDate(env.today)
  {
    (path: string, s: Stored) => Process(env, folder, path, s)
  }

  lemma DocStepIs(env: Env, folder: string, path: string, s: Stored)
    requires ValidDate(env.today)
    ensures DocStep(env, folder)(path, s) == Process(env, folder, path, s)
  {
  }

  lemma RunDocsSnoc(step: (string, Stored) -> Step, paths: seq<string>, path: string, stored: Stored)
    ensures var prev := RunDocs(step, paths, stored);
      var last := step(path, prev.store);
      RunDocs(step, paths + [path], stored) ==
        Progress(prev.reports + [DocReport(path, last.outcome)], last.after)
  {
    assert (paths + [path])[..|paths|] == paths;
  }

  /** A run extended by one more document: its report follows the earlier
      ones and its step leaves the file the run ends with. */
  lemma RunDocsExtend(step: (string, Stored) -> Step, paths: seq<string>, path: string, stored: Stored,
                      reports: seq<DocReport>, before: Stored, outcome: DocOutcome, after: Stored)
    requires Progress(reports, before) == RunDocs(step, paths, stored)
    requires step(path, before) == Step(outcome, after)
    ensures Progress(reports + [DocReport(path, outcome)], after) == RunDocs(step, paths + [path], stored)
  {
    RunDocsSnoc(step, paths, path, stored);
  }

  /** Running `a` and then `b` from the file `a` left is running `a + b`. */
  lemma {:induction false} RunDocsAppend(step: (string, Stored) -> Step, a: seq<string>, b: seq<string>, stored: Stored)
    ensures var first := RunDocs(step, a, stored);
      var second := RunDocs(step, b, first.store);
      RunDocs(step, a + b, stored) == Progress(first.reports + second.reports, second.store)
    decreases |b|
  {
    var first := RunDocs(step, a, stored);
    if b == [] {
      assert a + b == a;
      assert first.reports + [] == first.reports;
    } else {
      var b', x := b[..|b| - 1], b[|b| - 1];
      assert b' + [x] == b;
      assert a + b == (a + b') + [x];
      RunDocsAppend(step, a, b', stored);
      RunDocsSnoc(step, a + b', x, stored);
      RunDocsSnoc(step, b', x, first.store);
      var second' := RunDocs(step, b', first.store);
      var last := step(x, second'.store);
      assert first.reports + (second'.reports + [DocReport(x, last.outcome)]) ==
             (first.reports + second'.reports) + [DocReport(x, last.outcome)];
    }
  }

  /** One document extends the output file and does nothing else to it. */
  lemma ProcessExtends(env: Env, folder: string, path: string, stored: Stored)
    requires ValidDate(env.today)
    ensures Extends(stored, Process(env, folder, path, stored).after)
  {
    var r := Process(env, folder, path, stored);
    if r.outcome.WriteAttempted? {
      var x := FindParameters(env.textOf(path));
      var rows := env.lookup(FindRefno(env.baseName(path))).rows;
      ProcessWritesLookupRows(env, folder, path, stored);
      WriteExtends(stored, rows, FieldsOf(x), env.saveWorks);
    }
  }

  /** A run of steps each of which extends the file extends it as a whole. */
  lemma {:induction false} RunExtends(step: (string, Stored) -> Step, paths: seq<string>, stored: Stored)
    requires forall path, s :: Extends(s, step(path, s).after)
    ensures Extends(stored, RunDocs(step, paths, stored).store)
    decreases |paths|
  {
    if paths != [] {
      var init := paths[..|paths| - 1];
      RunExtends(step, init, stored);
      var prev := RunDocs(step, init, stored);
      RunDocsSnoc(step, init, paths[|paths| - 1], stored);
      assert init + [paths[|paths| - 1]] == paths;
      ExtendsTransitive(stored, prev.store, step(paths[|paths| - 1], prev.store).after);
    }
  }

  /** The output file only grows over a whole run: no row already in it is
      changed, removed or reordered, whatever the documents are. */
  lemma BatchOnlyAppends(env: Env, folder: string, paths: seq<string>, stored: Stored)
    requires ValidDate(env.today)
    ensures Extends(stored, RunDocs(DocStep(env, folder), paths, stored).store)
  {
    forall path, s ensures Extends(s, DocStep(env, folder)(path, s).after) {
      DocStepIs(env, folder, path, s);
      ProcessExtends(env, folder, path, s);
    }
    RunExtends(DocStep(env, folder), paths, stored);
  }

  /** A complete statement whose lookup gives rows that all fit a table of `width` columns. */
  predicate Fruitful(env: Env, path: string, width: nat) {
    && Ready(FindParameters(env.textOf(path)))
    && env.lookup(FindRefno(env.baseName(path))).Rows?
    && AllFit(env.lookup(FindRefno(env.baseName(path))).rows, width)
  }

  /** The lookup rows of a document whose lookup succeeded. */
  function RowsOf(env: Env, path: string): seq<seq<string>>
    requires env.lookup(FindRefno(env.baseName(path))).Rows?
  {
    env.lookup(FindRefno(env.baseName(path))).rows
  }

  /** Two fruitful documents processed one after the other: the file holds
      what it held, then the first document's report rows, then the
      second's, under the columns it started with. */
  lemma TwoDocumentsInOrder(env: Env, folder: string, p1: string, p2: string, stored: Stored)
    requires ValidDate(env.today) && env.saveWorks && !stored.Unreadable?
    requires Fruitful(env, p1, |Initial(stored).columns|) && Fruitful(env, p2, |Initial(stored).columns|)
    ensures var t := Initial(stored);
      var r1 := ReportRows(RowsOf(env, p1), FieldsOf(FindParameters(env.textOf(p1))));
      var r2 := ReportRows(RowsOf(env, p2), FieldsOf(FindParameters(env.textOf(p2))));
      RunDocs(DocStep(env, folder), [p1, p2], stored).store == Present(Table(t.columns, t.rows + r1 + r2))
  {
    var t := Initial(stored);
    var f1, f2 := FieldsOf(FindParameters(env.textOf(p1))), FieldsOf(FindParameters(env.textOf(p2)));
    var s1 := Process(env, folder, p1, stored).after;
    ProcessWritesLookupRows(env, folder, p1, stored);
    WriteAppendsOneRowEach(stored, RowsOf(env, p1), f1);
    assert s1 == Present(Table(t.columns, t.rows + ReportRows(RowsOf(env, p1), f1)));
    ProcessWritesLookupRows(env, folder, p2, s1);
    WriteAppendsOneRowEach(s1, RowsOf(env, p2), f2);
    DocStepIs(env, folder, p1, stored);
    DocStepIs(env, folder, p2, s1);
    RunTwoReports(DocStep(env, folder), p1, p2, stored);
  }

  /** Processing the same fruitful document twice in a run, or in two runs
      on the same day, stores its report rows twice: nothing is deduplicated. */
  lemma SameDocumentTwiceDuplicates(env: Env, folder: string, path: string, stored: Stored)
    requires ValidDate(env.today) && env.saveWorks && !stored.Unreadable?
    requires Fruitful(env, path, |Initial(stored).columns|)
    ensures var t := Initial(stored);
      var r := ReportRows(RowsOf(env, path), FieldsOf(FindParameters(env.textOf(path))));
      RunDocs(DocStep(env, folder), [path, path], stored).store == Present(Table(t.columns, t.rows + r + r))
  {
    TwoDocumentsInOrder(env, folder, path, path, stored);
  }

  /** A directory yields exactly the joined paths of its PDF names. */
  lemma {:induction false} PdfPathsInMembers(env: Env, dirpath: string, names: seq<string>, x: string)
    ensures x in PdfPathsIn(env, dirpath, names) <==>
      exists k :: 0 <= k < |names| && IsPdfName(names[k]) && x == env.join(dirpath, names[k])
    decreases |names|
  {
    if names != [] {
      var init := names[..|names| - 1];
      PdfPathsInMembers(env, dirpath, init, x);
      assert forall k :: 0 <= k < |init| ==> init[k] == names[k];
      if x in PdfPathsIn(env, dirpath, names) && x !in PdfPathsIn(env, dirpath, init) {
        assert IsPdfName(names[|names| - 1]) && x == env.join(dirpath, names[|names| - 1]);
      }
    }
  }

  /** The walk yields exactly the joined paths of the PDF names of its directories. */
  lemma {:induction false} PdfPathsMembers(env: Env, walk: seq<WalkDir>, x: string)
    ensures x in PdfPaths(env, walk) <==>
      exists i, k :: 0 <= i < |walk| && 0 <= k < |walk[i].filenames| &&
        IsPdfName(walk[i].filenames[k]) && x == env.join(walk[i].dirpath, walk[i].filenames[k])
    decreases |walk|
  {
    if walk != [] {
      var init := walk[..|walk| - 1];
      var d := walk[|walk| - 1];
      PdfPathsMembers(env, init, x);
      PdfPathsInMembers(env, d.dirpath, d.filenames, x);
      assert forall i :: 0 <= i < |init| ==> init[i] == walk[i];
      if x in PdfPathsIn(env, d.dirpath, d.filenames) {
        var k :| 0 <= k < |d.filenames| && IsPdfName(d.filenames[k]) && x == env.join(d.dirpath, d.filenames[k]);
        assert walk[|walk| - 1].filenames[k] == d.filenames[k];
      }
    }
  }

  /** A folder holding a statement and a file of another name ending in
      `.pdf` yields both paths, in the folder's order. */
  lemma TwoPdfNamesInFolder(env: Env, dir: string, statement: string, other: string)
    requires IsPdfName(statement) && IsPdfName(other)
    ensures PdfPaths(env, [WalkDir(dir, [statement, other])]) == [env.join(dir, statement), env.join(dir, other)]
  {
    var names := [statement, other];
    assert names[..1] == [statement] && [statement][..0] == [];
    assert PdfPathsIn(env, dir, [statement]) == [env.join(dir, statement)];
    assert PdfPathsIn(env, dir, names) == [env.join(dir, statement), env.join(dir, other)];
    var walk := [WalkDir(dir, names)];
    assert walk[..0] == [];
  }

  /** A folder holding a statement and a file without fields: both names
      pass the filter, so the walk yields the statement's path and then the
      other one. */
  lemma ScenarioWalk(env: Env, dir: string)
    ensures PdfPaths(env, [WalkDir(dir, ["250000001_stmt.pdf", "garbage.pdf"])]) ==
      [env.join(dir, "250000001_stmt.pdf"), env.join(dir, "garbage.pdf")]
  {
    assert LabelAt("250000001_stmt.pdf", ".pdf", 14);
    PdfNameByLabel("250000001_stmt.pdf");
    assert LabelAt("garbage.pdf", ".pdf", 7);
    PdfNameByLabel("garbage.pdf");
    TwoPdfNamesInFolder(env, dir, "250000001_stmt.pdf", "garbage.pdf");
  }

  /** A two-document run reports both documents in order. */
  lemma RunTwoReports(step: (string, Stored) -> Step, p1: string, p2: string, stored: Stored)
    ensures var r1 := step(p1, stored);
      var r2 := step(p2, r1.after);
      RunDocs(step, [p1, p2], stored) == Progress([DocReport(p1, r1.outcome), DocReport(p2, r2.outcome)], r2.after)
  {
    RunDocsSnoc(step, [], p1, stored);
    RunDocsSnoc(step, [p1], p2, stored);
    assert [] + [p1] == [p1] && [p1] + [p2] == [p1, p2];
  }

  /** A statement with all three fields and rows that fit, followed by a
      document lacking a field: the statement is written, the other is
      skipped, the run goes on to its end, and the file gains exactly the
      statement's report rows. */
  lemma FruitfulThenIncomplete(env: Env, folder: string, good: string, junk: string, stored: Stored)
    requires ValidDate(env.today) && env.saveWorks && !stored.Unreadable?
    requires Fruitful(env, good, |Initial(stored).columns|)
    requires !Ready(FindParameters(env.textOf(junk)))
    ensures var t := Initial(stored);
      var r := ReportRows(RowsOf(env, good), FieldsOf(FindParameters(env.textOf(good))));
      var run := RunDocs(DocStep(env, folder), [good, junk], stored);
      && run.reports == [DocReport(good, WriteAttempted(FindRefno(env.baseName(good)), env.join(folder, OutputName(env.today)))),
                         DocReport(junk, Incomplete(FindParameters(env.textOf(junk))))]
      && run.store == Present(Table(t.columns, t.rows + r))
  {
    var t := Initial(stored);
    var f := FieldsOf(FindParameters(env.textOf(good)));
    var s1 := Present(Table(t.columns, t.rows + ReportRows(RowsOf(env, good), f)));
    var target := env.join(folder, OutputName(env.today));
    assert Process(env, folder, good, stored) == Step(WriteAttempted(FindRefno(env.baseName(good)), target), s1) by {
      ProcessWritesLookupRows(env, folder, good, stored);
      WriteAppendsOneRowEach(stored, RowsOf(env, good), f);
    }
    assert Process(env, folder, junk, s1) == Step(Incomplete(FindParameters(env.textOf(junk))), s1);
    DocStepIs(env, folder, good, stored);
    DocStepIs(env, folder, junk, s1);
    RunTwoReports(DocStep(env, folder), good, junk, stored);
  }

  /** A statement beside a file without fields: a folder holding `250000001_stmt.pdf`, whose
      text has all three fields and whose lookup by `250000001` gives rows,
      and `garbage.pdf`, whose text lacks a field. The walk yields both paths
      in that order (`ScenarioWalk`); both are processed, the statement is
      looked up by `250000001` and written, the other is skipped, and the
      day's file gains the statement's report rows alone. */
  lemma StatementBesideGarbage(env: Env, folder: string, dir: string, stored: Stored)
    requires ValidDate(env.today) && env.saveWorks && !stored.Unreadable?
    requires env.baseName(env.join(dir, "250000001_stmt.pdf")) == "250000001_stmt.pdf"
    requires Ready(FindParameters(env.textOf(env.join(dir, "250000001_stmt.pdf"))))
    requires env.lookup(Some("250000001")).Rows?
    requires AllFit(env.lookup(Some("250000001")).rows, |Initial(stored).columns|)
    requires !Ready(FindParameters(env.textOf(env.join(dir, "garbage.pdf"))))
    ensures var good, junk := env.join(dir, "250000001_stmt.pdf"), env.join(dir, "garbage.pdf");
      var t := Initial(stored);
      var r := ReportRows(env.lookup(Some("250000001")).rows, FieldsOf(FindParameters(env.textOf(good))));
      var run := RunDocs(DocStep(env, folder), [good, junk], stored);
      && run.reports == [DocReport(good, WriteAttempted(Some("250000001"), env.join(folder, OutputName(env.today)))),
                         DocReport(junk, Incomplete(FindParameters(env.textOf(junk))))]
      && run.store == Present(Table(t.columns, t.rows + r))
  {
    var good, junk := env.join(dir, "250000001_stmt.pdf"), env.join(dir, "garbage.pdf");
    StatementFileName();
    assert RowsOf(env, good) == env.lookup(Some("250000001")).rows;
    FruitfulThenIncomplete(env, folder, good, junk, stored);
  }

  /** A directory's PDF paths are empty exactly when none of its names is a PDF name. */
  lemma {:induction false} NoPdfPathsInExactly(env: Env, dirpath: string, names: seq<string>)
    ensures PdfPathsIn(env, dirpath, names) == [] <==> forall k :: 0 <= k < |names| ==> !IsPdfName(names[k])
    decreases |names|
  {
    if names != [] {
      var init := names[..|names| - 1];
      NoPdfPathsInExactly(env, dirpath, init);
      assert forall k :: 0 <= k < |init| ==> init[k] == names[k];
    }
  }

  /** The walk yields no PDF path exactly when no file name anywhere in it is a PDF name. */
  lemma {:induction false} NoPdfPathsExactly(env: Env, walk: seq<WalkDir>)
    ensures PdfPaths(env, walk) == [] <==>
      forall i, k :: 0 <= i < |walk| && 0 <= k < |walk[i].filenames| ==> !IsPdfName(walk[i].filenames[k])
    decreases |walk|
  {
    if walk != [] {
      var init := walk[..|walk| - 1];
      var d := walk[|walk| - 1];
      NoPdfPathsExactly(env, init);
      NoPdfPathsInExactly(env, d.dirpath, d.filenames);
      assert forall i :: 0 <= i < |init| ==> init[i] == walk[i];
    }
  }

  lemma PdfPathsInSnoc(env: Env, dirpath: string, names: seq<string>, j: nat)
    requires j < |names|
    ensures PdfPathsIn(env, dirpath, names[..j + 1]) ==
      PdfPathsIn(env, dirpath, names[..j]) + (if IsPdfName(names[j]) then [env.join(dirpath, names[j])] else [])
  {
    assert names[..j + 1][..j] == names[..j];
  }

  lemma PdfPathsSnoc(env: Env, walk: seq<WalkDir>, i: nat)
    requires i < |walk|
    ensures PdfPaths(env, walk[..i + 1]) ==
      PdfPaths(env, walk[..i]) + PdfPathsIn(env, walk[i].dirpath, walk[i].filenames)
  {
    assert walk[..i + 1][..i] == walk[..i];
  }

  /** `step` agrees with `process_pdf` on every document and every state of
      the output file. (The trigger keeps the agreement from being used
      except where a document has actually been processed.) */
  ghost predicate Implements(step: (string, Stored) -> Step, env: Env, folder: string) {
    ValidDate(env.today) &&
    forall path, s {:trigger Process(env, folder, path, s)} :: step(path, s) == Process(env, folder, path, s)
  }

  lemma DocStepImplements(env: Env, folder: string)
    requires ValidDate(env.today)
    ensures Implements(DocStep(env, folder), env, folder)
  {
    forall path, s ensures DocStep(env, folder)(path, s) == Process(env, folder, path, s) {
      DocStepIs(env, folder, path, s);
    }
  }

  /** One more document of a run: `process_pdf` on `path` against the file
      the run has left so far, and its report after the earlier ones. */
  method ProcessNext(env: Env, folder: string, ghost step: (string, Stored) -> Step, path: string,
                     ghost done: seq<string>, stored: Stored, reports: seq<DocReport>, before: Stored)
    returns (reports': seq<DocReport>, after: Stored)
    requires Implements(step, env, folder)
    requires Progress(reports, before) == RunDocs(step, done, stored)
    ensures Progress(reports', after) == RunDocs(step, done + [path], stored)
  {
    var outcome;
    outcome, after := ProcessPdf(env, folder, path, before);
    RunDocsExtend(step, done, path, stored, reports, before, outcome, after);
    reports' := reports + [DocReport(path, outcome)];
  }

  /** The run's paths after the `j`-th name of a directory: one more when it is a PDF file. */
  lemma VisitedPaths(env: Env, dir: WalkDir, j: nat, done: seq<string>)
    requires j < |dir.filenames|
    ensures IsPdfName(dir.filenames[j]) ==>
      done + PdfPathsIn(env, dir.dirpath, dir.filenames[..j + 1]) ==
      done + PdfPathsIn(env, dir.dirpath, dir.filenames[..j]) + [env.join(dir.dirpath, dir.filenames[j])]
    ensures !IsPdfName(dir.filenames[j]) ==>
      done + PdfPathsIn(env, dir.dirpath, dir.filenames[..j + 1]) == done + PdfPathsIn(env, dir.dirpath, dir.filenames[..j])
  {
    PdfPathsInSnoc(env, dir.dirpath, dir.filenames, j);
  }

  /** One file name of a directory of the walk: a PDF file is processed as
      the next document of the run, any other name is passed over. */
  method VisitName(env: Env, folder: string, ghost step: (string, Stored) -> Step, dir: WalkDir, j: nat,
                   ghost done: seq<string>, stored: Stored, reports: seq<DocReport>, before: Stored)
    returns (reports': seq<DocReport>, after: Stored, isPdf: bool)
    requires Implements(step, env, folder) && j < |dir.filenames|
    requires Progress(reports, before) == RunDocs(step, done + PdfPathsIn(env, dir.dirpath, dir.filenames[..j]), stored)
    ensures Progress(reports', after) == RunDocs(step, done + PdfPathsIn(env, dir.dirpath, dir.filenames[..j + 1]), stored)
    ensures isPdf == IsPdfName(dir.filenames[j])
  {
    var name := dir.filenames[j];
    ghost var seen := done + PdfPathsIn(env, dir.dirpath, dir.filenames[..j]);
    ghost var next := done + PdfPathsIn(env, dir.dirpath, dir.filenames[..j + 1]);
    VisitedPaths(env, dir, j, done);
    isPdf := IsPdfName(name);
    if isPdf {
      var path := env.join(dir.dirpath, name);
      reports', after := ProcessNext(env, folder, step, path, seen, stored, reports, before);
      assert seen + [path] == next;
    } else {
      reports', after := reports, before;
    }
  }

  /** The PDF files of one directory of the walk, each processed in turn,
      continuing the run that produced `reports` and `after` from `done`;
      `sawPdf` is the flag that a PDF file was met. */
  method RunDirectory(env: Env, folder: string, ghost step: (string, Stored) -> Step, dir: WalkDir,
                      ghost done: seq<string>, stored: Stored, reports: seq<DocReport>, after: Stored)
    returns (reports': seq<DocReport>, after': Stored, sawPdf: bool)
    requires Implements(step, env, folder)
    requires Progress(reports, after) == RunDocs(step, done, stored)
    ensures Progress(reports', after') == RunDocs(step, done + PdfPathsIn(env, dir.dirpath, dir.filenames), stored)
    ensures sawPdf <==> PdfPathsIn(env, dir.dirpath, dir.filenames) != []
  {
    reports', after', sawPdf := reports, after, false;
    assert done + PdfPathsIn(env, dir.dirpath, dir.filenames[..0]) == done;
    var j := 0;
    while j < |dir.filenames|
      invariant 0 <= j <= |dir.filenames|
      invariant Progress(reports', after') == RunDocs(step, done + PdfPathsIn(env, dir.dirpath, dir.filenames[..j]), stored)
      invariant sawPdf <==> PdfPathsIn(env, dir.dirpath, dir.filenames[..j]) != []
    {
      var isPdf;
      PdfPathsInSnoc(env, dir.dirpath, dir.filenames, j);
      reports', after', isPdf := VisitName(env, folder, step, dir, j, done, stored, reports', after');
      sawPdf := sawPdf || isPdf;
      j := j + 1;
    }
    assert dir.filenames[..j] == dir.filenames;
  }

  /** The directories of the walk in order; `found` is `pdf_files_found`. */
  method RunWalk(env: Env, folder: string, ghost step: (string, Stored) -> Step, walk: seq<WalkDir>, stored: Stored)
    returns (reports: seq<DocReport>, after: Stored, found: bool)
    requires Implements(step, env, folder)
    ensures Progress(reports, after) == RunDocs(step, PdfPaths(env, walk), stored)
    ensures found <==> PdfPaths(env, walk) != []
  {
    found, reports, after := false, [], stored;
    var i := 0;
    while i < |walk|
      invariant 0 <= i <= |walk|
      invariant Progress(reports, after) == RunDocs(step, PdfPaths(env, walk[..i]), stored)
      invariant found <==> PdfPaths(env, walk[..i]) != []
    {
      var sawPdf;
      PdfPathsSnoc(env, walk, i);
      reports, after, sawPdf := RunDirectory(env, folder, step, walk[i], PdfPaths(env, walk[..i]), stored, reports, after);
      found := found || sawPdf;
      i := i + 1;
    }
    assert walk[..i] == walk;
  }

  /** `main`: a missing input or a file that is not a PDF ends the run at
      once, before any document and without opening the output folder. A
      PDF file is processed alone; a directory has each of its PDF files
      processed in walk order. Otherwise the output folder is opened at the end. */
  method RunBatch(env: Env, input: string, kind: PathKind, walk: seq<WalkDir>, folder: string, stored: Stored)
    returns (batch: Batch, after: Stored)
    requires ValidDate(env.today)
    ensures kind.Missing? ==> batch == Batch(InputMissing, [], false) && after == stored
    ensures kind.RegularFile? && !IsPdfName(input) ==> batch == Batch(NotPdf, [], false) && after == stored
    ensures kind.RegularFile? && IsPdfName(input) ==>
      batch.status == Completed && batch.folderOpened &&
      Progress(batch.reports, after) == RunDocs(DocStep(env, folder), [input], stored)
    ensures kind.Directory? ==>
      batch.folderOpened &&
      (batch.status == NoPdfFound <==> PdfPaths(env, walk) == []) &&
      (batch.status == NoPdfFound || batch.status == Completed) &&
      Progress(batch.reports, after) == RunDocs(DocStep(env, folder), PdfPaths(env, walk), stored)
    ensures kind.OtherKind? ==> batch == Batch(Completed, [], true) && after == stored
  {
    if kind.Missing? {
      return Batch(InputMissing, [], false), stored;
    }
    if kind.RegularFile? && !IsPdfName(input) {
      return Batch(NotPdf, [], false), stored;
    }
    if kind.OtherKind? {
      return Batch(Completed, [], true), stored;
    }
    ghost var step := DocStep(env, folder);
    DocStepImplements(env, folder);
    var reports;
    if kind.RegularFile? {
      reports, after := ProcessNext(env, folder, step, input, [], stored, [], stored);
      assert [] + [input] == [input];
      batch := Batch(Completed, reports, true);
    } else {
      var found;
      reports, after, found := RunWalk(env, folder, step, walk, stored);
      batch := Batch(if found then Completed else NoPdfFound, reports, true);
    }
  }
}
