/**
 * import_proposals_predictions_bulk_comprehensive.py: recreates the
 * `proposals_predictions` table of four databases and loads one CSV file
 * into each, 1000 rows per `executemany`, giving up on a file after more
 * than 100 errors.
 *
 * `safe_int`, `safe_bool` and `process_row_data` have the same text as in
 * import_proposals_predictions.py and share its definitions
 * (`ProposalsPredictions.ProcessRowData`); only the date parser differs.
 */
module ProposalsComprehensive {
  import opened Wrappers
  import opened PyText
  import opened Dates
  import opened RowStream
  import opened CappedLoop
  import Outreach
  import ProposalsPredictions

  type Row = map<string, string>

  /**
   * A CSV file as `csv.DictReader` reads it, with rows of type `R`:
   * `fieldnames` is None for an empty file, and `broken` says whether
   * asking the reader for a row after `rows` raises (a decoding error,
   * say) instead of ending the iteration.
   */
  datatype CsvFile<R> = CsvFile(header: Option<seq<string>>, rows: seq<R>, broken: bool)

  const BatchSize: nat := 1000
  const ErrorCap: nat := 100

  /** The formats `parse_date` tries, in order. */
  const DateFormats: seq<Format> := [YmdDash, MdySlash, DmySlash, YmdSlash, MdyDash, DmyDash]

  /** `date_str.strip().lower() == 'null'`. */
  predicate NullWord(s: string) {
    Lower(Strip(s)) == "null"
  }

  /**
   * `parse_date`: blank and the word `null` (any case, any surrounding
   * blanks) give None; otherwise the stripped text goes to each format in
   * turn and the first date found is kept.
   */
  function ParseDate(strptime: Strptime, v: Option<string>): Option<Date> {
    if v.None? then None else ParseStripped(strptime, Strip(v.value))
  }

  /** Blank and `null` give None; any other value is the first format's reading of its stripped text. */
  lemma ParseDateMeaning(strptime: Strptime, v: Option<string>)
    ensures Outreach.Blank(v) || NullWord(v.value) ==> ParseDate(strptime, v) == None
    ensures !Outreach.Blank(v) && !NullWord(v.value) ==> ParseDate(strptime, v) == TryFormats(strptime, Strip(v.value), DateFormats)
  {
  }

  function ParseStripped(strptime: Strptime, t: string): Option<Date> {
    if t == [] || Lower(t) == "null" then None else TryFormats(strptime, t, DateFormats)
  }

  /** Surrounding blanks never matter: the value and its stripped text parse alike. */
  lemma ParseDateIgnoresBlanks(strptime: Strptime, s: string)
    ensures ParseDate(strptime, Some(Strip(s))) == ParseDate(strptime, Some(s))
  {
    StripIdempotent(s);
    assert ParseDate(strptime, Some(Strip(s))) == ParseStripped(strptime, Strip(s));
  }

  /**
   * An ambiguous day and month: text that parses month-first with slashes
   * and not year-first is read month-first; the day-first reading is never
   * tried.
   */
  lemma MonthFirstWins(strptime: Strptime, s: string)
    requires !Outreach.Blank(Some(s)) && !NullWord(s)
    requires strptime(Strip(s), YmdDash).None? && strptime(Strip(s), MdySlash).Some?
    ensures ParseDate(strptime, Some(s)) == strptime(Strip(s), MdySlash)
  {
    ParseDateMeaning(strptime, Some(s));
    EarlierFormatWins(strptime, Strip(s), DateFormats, 1);
  }

  /** `col.lower().startswith('merge_')`. */
  predicate IsMergeColumn(c: string) {
    StartsWith(Lower(c), "merge_")
  }

  function KeepColumn(c: string): bool {
    !IsMergeColumn(c)
  }

  /** `filtered_columns`: the header without its `merge_*` columns, in order. */
  function FilteredColumns(cols: seq<string>): (r: seq<string>)
    ensures |r| <= |cols|
  {
    ProposalsPredictions.FilterShorter(cols, KeepColumn);
    ProposalsPredictions.Filter(cols, KeepColumn)
  }

  /** A column survives exactly when it is in the header and its lower-cased name does not start with `merge_`. */
  lemma FilteredColumnsMeaning(cols: seq<string>, c: string)
    ensures c in FilteredColumns(cols) <==> c in cols && !IsMergeColumn(c)
  {
    ProposalsPredictions.FilterShorter(cols, KeepColumn);
    if c in cols && KeepColumn(c) {
      FilterKeeps(cols, KeepColumn, c);
    }
  }

  lemma {:induction false} FilterKeeps<T>(xs: seq<T>, p: T -> bool, x: T)
    requires x in xs && p(x)
    ensures x in ProposalsPredictions.Filter(xs, p)
    decreases |xs|
  {
    if xs[|xs| - 1] != x {
      assert x in xs[..|xs| - 1] by {
        var i :| 0 <= i < |xs| && xs[i] == x;
        assert i < |xs| - 1;
        assert xs[..|xs| - 1][i] == x;
      }
      FilterKeeps(xs[..|xs| - 1], p, x);
    }
  }

  /** The converter of this script: `process_row_data` with dates kept as dates. */
  function Convert(strptime: Strptime): Row -> Option<ProposalsPredictions.Prediction<Date>> {
    row => ProposalsPredictions.ProcessRowData(v => ParseDate(strptime, v), Outreach.SafeInt, row)
  }

  /**
   * An infinite key makes the row fail: `int(float('inf'))` raises an
   * OverflowError that `safe_int` does not catch.
   */
  lemma InfiniteKeyFailsRow(strptime: Strptime, row: Row, k: nat)
    requires k < |ProposalsPredictions.IntKeys|
    requires Outreach.SafeInt(Outreach.Get(row, ProposalsPredictions.IntKeys[k])).RaisesOverflow?
    ensures Convert(strptime)(row).None?
  {
    assert ProposalsPredictions.IntConversions(Outreach.SafeInt, row)[k].RaisesOverflow?;
  }

  /**
   * How the import ends after the row loop left the state `s`: when the
   * loop read every row without the error cap's `break` and the reader
   * then raises, the exception escapes the per-row handler and False is
   * returned with the pending batch unsent; otherwise the pending batch
   * goes out as `Flush` says.
   */
  function Ended<T>(s: State<T>, broken: bool, ok: nat -> bool): (r: (bool, seq<T>))
    ensures r.0 ==> r.1 == s.committed + s.batch
    ensures !r.0 ==> r.1 == s.committed
    ensures broken && !s.stopped ==> !r.0
    ensures !broken || s.stopped ==> r == Flush(s, ok)
  {
    if broken && !s.stopped then (false, s.committed) else Flush(s, ok)
  }

  /**
   * `import_csv_to_database`, for any row conversion.  A missing file, a
   * failed connection or a file without a header (iterating over the
   * missing `fieldnames` raises) returns False with the new table empty.
   * Otherwise the row loop runs and the import ends as `Ended` says.
   * `table` is what the table holds afterwards.
   */
  method ImportFile<R, T>(process: R -> Option<T>, file: Option<CsvFile<R>>, connected: bool, ok: nat -> bool)
    returns (result: bool, table: seq<T>, errorCount: nat)
    ensures file.None? || !connected || file.value.header.None? ==> !result && table == [] && errorCount == 0
    ensures file.Some? && connected && file.value.header.Some? ==>
      var s := Run(process, file.value.rows, ok, ErrorCap, BatchSize, Empty());
      (result, table) == Ended(s, file.value.broken, ok) && errorCount == s.errors
  {
    if file.None? || !connected || file.value.header.None? {
      return false, [], 0;
    }
    var s, successCount := BatchLoop(process, file.value.rows, ok, ErrorCap, BatchSize);
    errorCount := s.errors;
    if file.value.broken && !s.stopped {
      return false, s.committed, errorCount;
    }
    if s.batch == [] {
      return true, s.committed, errorCount;
    }
    if !ok(s.calls) {
      return false, s.committed, errorCount;
    }
    return true, s.committed + s.batch, errorCount;
  }

  /** The import of this script: `process_row_data` on every row. */
  method ImportCsvToDatabase(strptime: Strptime, file: Option<CsvFile<Row>>, connected: bool, ok: nat -> bool)
    returns (result: bool, table: seq<ProposalsPredictions.Prediction<Date>>, errorCount: nat)
    ensures file.None? || !connected || file.value.header.None? ==> !result && table == []
    ensures file.Some? && connected && file.value.header.Some? ==>
      (result, table) == Ended(Run(Convert(strptime), file.value.rows, ok, ErrorCap, BatchSize, Empty()), file.value.broken, ok)
  {
    result, table, errorCount := ImportFile(Convert(strptime), file, connected, ok);
  }

  /**
   * What an import leaves: the rows of the table are the values of the
   * good rows in file order, a leading part of them, and all of them when
   * the run returned True without hitting the error cap; at most 101
   * errors are counted.  This holds whether or not the reader raises
   * after the rows.
   */
  lemma ImportedRows<R, T>(process: R -> Option<T>, rows: seq<R>, broken: bool, ok: nat -> bool)
    ensures var s := Run(process, rows, ok, ErrorCap, BatchSize, Empty()); var f := Ended(s, broken, ok);
      && f.1 <= Good(process, rows)
      && (f.0 && !s.stopped ==> f.1 == Good(process, rows))
      && s.errors <= ErrorCap + 1
  {
    RunMeaning(process, rows, ok, ErrorCap, BatchSize);
  }

  /**
   * A file whose rows all convert and whose reader ends cleanly, with
   * every statement succeeding, is imported whole, in file order.
   */
  lemma CleanImport<R, T>(process: R -> Option<T>, rows: seq<R>, ok: nat -> bool)
    requires forall j :: 0 <= j < |rows| ==> process(rows[j]).Some?
    requires forall k :: ok(k)
    ensures var s := Run(process, rows, ok, ErrorCap, BatchSize, Empty());
      Ended(s, false, ok) == (true, Processed(process, rows).0) && s.errors == 0
  {
    CleanRun(process, rows, ok, ErrorCap, BatchSize);
  }

  /** `CSV_DATABASE_MAPPING`: each file and the database it goes to. */
  const Mapping: seq<(string, string)> := [
    ("docker/2025_Nov_to_July_Predictions_OriginalModel_SDS.csv", "proxy_sds"),
    ("docker/2025_Nov_to_July_Predictions_CalibratedModel_SDS.csv", "proxy_sds_calibrated"),
    ("docker/2025_Nov_to_July_Predictions_OriginalModel_666.csv", "proxy_sel"),
    ("docker/2025_Nov_to_July_Predictions_CalibratedModel_666.csv", "proxy_sel_calibrated")]

  /**
   * `main`: a file that does not exist or whose table cannot be recreated
   * is skipped, the others are imported; the exit code is 0 exactly when
   * every file was imported.
   */
  method RunMapping(found: string -> bool, created: string -> bool, imported: ((string, string)) -> bool)
    returns (successCount: nat, code: int)
    ensures successCount == |ProposalsPredictions.Filter(Mapping, (m: (string, string)) => found(m.0) && created(m.1) && imported(m))|
    ensures code == 0 <==> forall m :: m in Mapping ==> found(m.0) && created(m.1) && imported(m)
    ensures code == 0 || code == 1
  {
    ghost var p := (m: (string, string)) => found(m.0) && created(m.1) && imported(m);
    successCount := 0;
    var i := 0;
    while i < |Mapping|
      invariant i <= |Mapping|
      invariant successCount == |ProposalsPredictions.Filter(Mapping[..i], p)|
    {
      ProposalsPredictions.FilterSnoc(Mapping, i, p);
      var (file, db) := Mapping[i];
      if found(file) && created(db) && imported((file, db)) {
        successCount := successCount + 1;
      }
      i := i + 1;
    }
    assert Mapping[..i] == Mapping;
    FilterAll(Mapping, p);
    code := if successCount == |Mapping| then 0 else 1;
  }

  /** Every element passes exactly when filtering keeps them all. */
  lemma {:induction false} FilterAll<T>(xs: seq<T>, p: T -> bool)
    ensures |ProposalsPredictions.Filter(xs, p)| == |xs| <==> forall x :: x in xs ==> p(x)
    decreases |xs|
  {
    ProposalsPredictions.FilterShorter(xs, p);
    if xs != [] {
      var front := xs[..|xs| - 1];
      FilterAll(front, p);
      ProposalsPredictions.FilterShorter(front, p);
      assert xs == front + [xs[|xs| - 1]];
      if forall x :: x in xs ==> p(x) {
        assert forall x :: x in front ==> p(x);
      }
    }
  }
}
