/** The report writer (`write_to_excel`): one report row per lookup row,
    appended after the rows already in the day's spreadsheet, and the whole
    table saved back only when every row was built. The spreadsheet file is
    an in-memory value: absent, unreadable, or a table of text cells. */
module Report {
  import opened Text

  /** The fixed column order of a newly created report. */
  const Header: seq<string> := [
    "MASTER.FILENO", "MASTER.FORW_FILENO", "MASTER.FORW_REFNO", "DEBTOR.NAME",
    "MASTER.CHARGE_OFF", "MASTER.ORIG_CLAIM", "MASTER.CHARGE_OFF_DATE",
    "ACCOUNT NUMBER", "NEW BALANCE", "STATEMENT CLOSING DATE", "DUE DATE"
  ]

  /** The lookup query selects seven columns: file number, forwarded file
      number, forwarded reference number, debtor name, charge-off flag,
      original claim and charge-off date. */
  const LookupWidth: nat := 7

  /** The three extracted fields as they reach the writer. */
  datatype StatementFields = StatementFields(balance: string, closing: string, due: string)

  datatype Table = Table(columns: seq<string>, rows: seq<seq<string>>)

  /** The output file: missing, present but not readable as a table, or a table. */
  datatype Stored = Absent | Unreadable | Present(table: Table)

  /** Building the report row for `row` against a table of `width` columns
      succeeds: a row of fewer than two cells fails on `row[1]`, and a
      built row whose length differs from the column count fails when the
      one-row frame is made with the table's columns. */
  predicate Fits(row: seq<string>, width: nat) {
    |row| >= 2 && |row| + 4 == width
  }

  predicate AllFit(data: seq<seq<string>>, width: nat) {
    forall k :: 0 <= k < |data| ==> Fits(data[k], width)
  }

  /** The report row for one lookup row: the file number marked as text with
      a leading apostrophe, the other lookup cells unchanged, the forwarded
      file number again as the account number, then the three fields. */
  function ReportRow(row: seq<string>, f: StatementFields): (r: seq<string>)
    requires |row| >= 2
    ensures |r| == |row| + 4
  {
    ["'" + row[0]] + row[1..] + [row[1], f.balance, f.closing, f.due]
  }

  /** A seven-cell lookup row becomes exactly one cell per header column,
      each under its own name. */
  lemma RowShape(row: seq<string>, f: StatementFields)
    requires |row| == LookupWidth
    ensures var r := ReportRow(row, f);
      && |r| == |Header|
      && r[0] == "'" + row[0]
      && (forall k :: 1 <= k < LookupWidth ==> r[k] == row[k])
      && r[7] == row[1] && r[8] == f.balance && r[9] == f.closing && r[10] == f.due
  {
    var r := ReportRow(row, f);
    forall k | 1 <= k < LookupWidth ensures r[k] == row[k] {
      assert r[k] == row[1..][k - 1];
    }
  }

  /** The report rows for a sequence of lookup rows, in lookup order. */
  function ReportRows(data: seq<seq<string>>, f: StatementFields): (rs: seq<seq<string>>)
    requires forall k :: 0 <= k < |data| ==> |data[k]| >= 2
    ensures |rs| == |data|
    ensures forall k :: 0 <= k < |data| ==> rs[k] == ReportRow(data[k], f)
  {
    seq(|data|, k requires 0 <= k < |data| => ReportRow(data[k], f))
  }

  /** How many leading lookup rows fit before the first that does not. */
  function FitPrefix(data: seq<seq<string>>, width: nat): (n: nat)
    ensures n <= |data|
    ensures forall k :: 0 <= k < n ==> Fits(data[k], width)
    ensures n < |data| ==> !Fits(data[n], width)
    ensures n == |data| <==> AllFit(data, width)
  {
    var misfit := (k: nat) => k < |data| && !Fits(data[k], width);
    assert forall k: nat :: misfit(k) == (k < |data| && !Fits(data[k], width));
    match FirstFrom(misfit, 0, |data|)
    case None => |data|
    case Some(k) => k
  }

  /** The table being built in memory (the data frame). */
  class ReportTable {
    var columns: seq<string>
    var rows: seq<seq<string>>

    /** A new frame with the fixed header and no rows. */
    constructor Empty()
      ensures columns == Header && rows == []
    {
      columns := Header;
      rows := [];
    }

    /** A frame read from an existing file, every cell as text. */
    constructor Load(t: Table)
      ensures columns == t.columns && rows == t.rows
    {
      columns := t.columns;
      rows := t.rows;
    }

    /** Appends one report row per lookup row, in lookup order, stopping
        (where the source raises) at the first lookup row that does not
        fit; `ok` says whether every row was appended. */
    method Append(data: seq<seq<string>>, f: StatementFields) returns (ok: bool)
      modifies this
      ensures columns == old(columns)
      ensures ok <==> AllFit(data, |columns|)
      ensures rows == old(rows) + ReportRows(data[..FitPrefix(data, |columns|)], f)
    {
      var i := 0;
      while i < |data|
        invariant 0 <= i <= |data|
        invariant columns == old(columns)
        invariant forall k :: 0 <= k < i ==> Fits(data[k], |columns|)
        invariant rows == old(rows) + ReportRows(data[..i], f)
      {
        if !Fits(data[i], |columns|) {
          assert FitPrefix(data, |columns|) == i;
          return false;
        }
        assert ReportRows(data[..i + 1], f) == ReportRows(data[..i], f) + [ReportRow(data[i], f)];
        rows := rows + [ReportRow(data[i], f)];
        i := i + 1;
      }
      assert data[..i] == data;
      return true;
    }
  }

  /** The table a write starts from: the stored one, or a new one with the header. */
  function Initial(stored: Stored): (t: Table)
    requires !stored.Unreadable?
    ensures stored.Absent? ==> t == Table(Header, [])
    ensures stored.Present? ==> t == stored.table
  {
    if stored.Absent? then Table(Header, []) else stored.table
  }

  /** The output file after a write: the prior rows followed by one report
      row per lookup row when every row fits and the save succeeds; otherwise
      the file as it was. A read error or a misfit is raised before the save
      and caught; `saveWorks == false` stands for a save that fails before
      the file is opened for writing, so it too leaves the file untouched. */
  function Written(stored: Stored, data: seq<seq<string>>, f: StatementFields, saveWorks: bool): Stored {
    if stored.Unreadable? then stored
    else
      var t := Initial(stored);
      if AllFit(data, |t.columns|) && saveWorks
      then Present(Table(t.columns, t.rows + ReportRows(data, f)))
      else stored
  }

  /** `write_to_excel`: load or create the frame, append the rows, save the
      whole table back; every failure leaves the file as it was. */
  method WriteToExcel(stored: Stored, data: seq<seq<string>>, f: StatementFields, saveWorks: bool)
    returns (after: Stored)
    ensures after == Written(stored, data, f, saveWorks)
    ensures after == stored || after.Present?
  {
    if stored.Unreadable? {
      return stored;
    }
    var t: ReportTable;
    if stored.Present? {
      t := new ReportTable.Load(stored.table);
    } else {
      t := new ReportTable.Empty();
    }
    var ok := t.Append(data, f);
    if ok && saveWorks {
      after := Present(Table(t.columns, t.rows));
    } else {
      after := stored;
    }
  }

  // ----- properties of a write -----

  /** A write never changes or reorders the rows already stored, and keeps their columns. */
  lemma WriteKeepsPriorRows(stored: Stored, data: seq<seq<string>>, f: StatementFields, saveWorks: bool)
    requires stored.Present?
    ensures var after := Written(stored, data, f, saveWorks);
      && after.Present?
      && after.table.columns == stored.table.columns
      && |stored.table.rows| <= |after.table.rows|
      && after.table.rows[..|stored.table.rows|] == stored.table.rows
  {
    var after := Written(stored, data, f, saveWorks);
    if after != stored {
      assert after.table.rows == stored.table.rows + ReportRows(data, f);
    }
  }

  /** When every row fits and the save succeeds, N prior rows and M lookup
      rows give N + M rows: the prior ones first, then one report row per
      lookup row in lookup order. A missing file starts from the header. */
  lemma WriteAppendsOneRowEach(stored: Stored, data: seq<seq<string>>, f: StatementFields)
    requires !stored.Unreadable? && AllFit(data, |Initial(stored).columns|)
    ensures var before := Initial(stored);
      var after := Written(stored, data, f, true);
      && after == Present(Table(before.columns, before.rows + ReportRows(data, f)))
      && |after.table.rows| == |before.rows| + |data|
      && after.table.rows[..|before.rows|] == before.rows
      && after.table.rows[|before.rows|..] == ReportRows(data, f)
  {
    var before := Initial(stored);
    var added := ReportRows(data, f);
    assert Written(stored, data, f, true) == Present(Table(before.columns, before.rows + added));
    Concatenation(before.rows, added);
  }

  /** `after` is what writes may make of `before`: an unreadable file stays
      as it is, a missing file stays missing or becomes a table under the
      fixed header, and an existing table keeps its columns and its rows, in
      place, at its start. */
  predicate Extends(before: Stored, after: Stored) {
    && (before.Unreadable? ==> after == before)
    && (before.Absent? ==> after.Absent? || (after.Present? && after.table.columns == Header))
    && (before.Present? ==>
          && after.Present? && after.table.columns == before.table.columns
          && |before.table.rows| <= |after.table.rows|
          && after.table.rows[..|before.table.rows|] == before.table.rows)
  }

  lemma ExtendsTransitive(a: Stored, b: Stored, c: Stored)
    requires Extends(a, b) && Extends(b, c)
    ensures Extends(a, c)
  {
    if a.Present? {
      var n := |a.table.rows|;
      assert c.table.rows[..n] == c.table.rows[..|b.table.rows|][..n];
    }
  }

  /** Every write, successful or not, extends the file. */
  lemma WriteExtends(stored: Stored, data: seq<seq<string>>, f: StatementFields, saveWorks: bool)
    ensures Extends(stored, Written(stored, data, f, saveWorks))
  {
    if stored.Present? {
      WriteKeepsPriorRows(stored, data, f, saveWorks);
    }
  }

  lemma Concatenation<T>(a: seq<T>, b: seq<T>)
    ensures |a + b| == |a| + |b| && (a + b)[..|a|] == a && (a + b)[|a|..] == b
  {
  }

  /** A file that cannot be read, a lookup row that does not fit (both
      raised before the save), or a save that fails before it opens the file
      leaves the stored file exactly as it was. */
  lemma FailedWriteChangesNothing(stored: Stored, data: seq<seq<string>>, f: StatementFields, saveWorks: bool)
    requires stored.Unreadable? || !saveWorks || !AllFit(data, |Initial(stored).columns|)
    ensures Written(stored, data, f, saveWorks) == stored
  {
  }

  /** With at least one lookup row, exactly one of a table whose width is
      not eleven and a lookup row that is not seven cells makes the write a
      no-op. (When both are off by the same amount the row still fits.) */
  lemma WidthMismatchChangesNothing(stored: Stored, data: seq<seq<string>>, f: StatementFields, saveWorks: bool, k: nat)
    requires !stored.Unreadable? && k < |data|
    requires |Initial(stored).columns| != |Header| || |data[k]| != LookupWidth
    requires |Initial(stored).columns| == |Header| || |data[k]| == LookupWidth
    ensures Written(stored, data, f, saveWorks) == stored
  {
    assert !Fits(data[k], |Initial(stored).columns|);
  }

  /** No lookup rows: an existing table is saved back unchanged, and a
      missing file becomes a table holding only the header. */
  lemma EmptyLookupAddsNoRows(stored: Stored, f: StatementFields)
    requires !stored.Unreadable?
    ensures Written(stored, [], f, true) == Present(Initial(stored))
  {
    assert ReportRows([], f) == [];
    assert Initial(stored).rows + [] == Initial(stored).rows;
  }

  /** Writing the same lookup rows twice stores them twice: there is no deduplication. */
  lemma NoDeduplication(stored: Stored, data: seq<seq<string>>, f: StatementFields)
    requires !stored.Unreadable? && AllFit(data, |Initial(stored).columns|)
    ensures var once := Written(stored, data, f, true);
      var twice := Written(once, data, f, true);
      && twice.Present?
      && twice.table.rows == Initial(stored).rows + ReportRows(data, f) + ReportRows(data, f)
  {
    var once := Written(stored, data, f, true);
    assert once.table.columns == Initial(stored).columns;
  }
}
