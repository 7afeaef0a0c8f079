/**
 * `validate_csv_format` of verify_csv_format.py: checks a CSV file
 * against the nine-column schema of `account_unvoted` or `account_voted`
 * and fills a results record with a verdict, errors, warnings and row
 * statistics.
 *
 * The file is given as the rows the CSV reader yields (`None` when the
 * file does not exist), together with whether reading then raises
 * instead of reaching the end of the file.  Messages are kept as
 * structured values rather than their formatted text.
 */
module VerifyCsv {
  import opened Wrappers
  import opened PyText
  import opened PyNum
  import opened Batching

  const UnvotedColumns: seq<string> := [
    "account_hash_key", "proposal_master_skey", "director_master_skey",
    "account_type", "shares_summable", "rank_of_shareholding",
    "score_model1", "prediction_model1", "Target_encoded"]

  const VotedColumns: seq<string> := [
    "account_hash_key", "proposal_master_skey", "director_master_skey",
    "account_type", "shares_summable", "rank_of_shareholding",
    "score_model2", "prediction_model2", "Target_encoded"]

  /** Data rows checked before the loop stops. */
  const SampleSize: nat := 100

  /** Above this many row errors only the first ones are reported. */
  const ReportedRowErrors: nat := 10

  /** Above this many row errors the file is invalid. */
  const ToleratedRowErrors: nat := 5

  /** `expected_schemas[table_type]`; `None` for a type that is not in the dictionary. */
  function ExpectedColumns(tableType: string): (r: Option<seq<string>>)
    ensures r.Some? <==> tableType == "unvoted" || tableType == "voted"
  {
    if tableType == "unvoted" then Some(UnvotedColumns)
    else if tableType == "voted" then Some(VotedColumns)
    else None
  }

  /**
   * An existing file as the CSV reader sees it: the rows it yields, and
   * whether asking it for the row after the last of them raises (an
   * undecodable byte, an unreadable file) rather than ending the file.
   */
  datatype CsvFile = CsvFile(lines: seq<seq<string>>, broken: bool)

  datatype Message =
    | UnknownTableType(tableType: string)
    | FileNotFound
    | FileEmpty
    | ReadError
    | ColumnCountMismatch(found: nat, expected: nat)
    | MissingColumns(missing: set<string>)
    | ExtraColumns(extra: set<string>)
    | RedundantColumns(redundant: set<string>)
    | RowLength(rowNum: nat, expectedLength: nat, got: nat)
    | InvalidValue(row: nat, column: string, value: string)
    | MoreErrors(count: nat)

  /** The `results` dictionary; `file_size_mb` is not modelled. */
  datatype Results = Results(valid: bool, errors: seq<Message>, warnings: seq<Message>, totalRows: nat, validRows: nat)

  // ---------------------------------------------------------------
  // The type validators
  // ---------------------------------------------------------------

  /** `_is_float`: empty, or accepted by `float()`. */
  predicate IsFloatText(x: string) {
    x == "" || ParseFloat(x).Some?
  }

  predicate IsDigitColumn(col: string) {
    col == "proposal_master_skey" || col == "director_master_skey"
    || col == "rank_of_shareholding" || col == "Target_encoded"
  }

  predicate IsFloatColumn(col: string) {
    col == "shares_summable" || col == "score_model1" || col == "score_model2"
  }

  predicate IsPredictionColumn(col: string) {
    col == "prediction_model1" || col == "prediction_model2"
  }

  predicate IsAccountType(x: string) {
    x == "Individual" || x == "Institution" || x == "Mutual Fund" || x == "Other"
  }

  /** A check of a cell value given its column name. */
  type Validator = (string, string) -> bool

  /** `type_validators[col](x)` for a CSV cell, or true for a column without a validator. */
  predicate ValidValue(col: string, x: string) {
    if col == "account_hash_key" then x != []
    else if IsDigitColumn(col) then IsDigitString(x)
    else if col == "account_type" then IsAccountType(x)
    else if IsFloatColumn(col) then IsFloatText(x)
    else if IsPredictionColumn(col) then x == "" || x == "0" || x == "1"
    else true
  }

  /** An empty cell passes exactly the score, share and prediction validators (and columns without one). */
  lemma EmptyCellRule(col: string)
    ensures ValidValue(col, "") <==> !(col == "account_hash_key" || IsDigitColumn(col) || col == "account_type")
  {
  }

  /** `_is_float` accepts every rendered integer. */
  lemma IntegerIsFloat(n: int)
    ensures IsFloatText(IntToString(n))
  {
    ParseFloatOfIntString(n);
  }

  /** A key column accepts a rendered integer iff it is not negative. */
  lemma IntegerKeyRule(col: string, n: int)
    requires IsDigitColumn(col)
    ensures ValidValue(col, IntToString(n)) <==> n >= 0
  {
    var s := IntToString(n);
    if n >= 0 {
      assert s == NatToString(n);
    } else {
      assert s[0] == '-';
    }
  }

  /** A key column rejects any cell with a character other than a digit, a sign included. */
  lemma DigitColumnRejects(col: string, x: string, k: nat)
    requires IsDigitColumn(col) && k < |x| && !IsDigit(x[k])
    ensures !ValidValue(col, x)
  {
  }

  /** The two schemas differ only in the model-specific score and prediction columns. */
  lemma SchemasDiffer()
    ensures |UnvotedColumns| == |VotedColumns| == 9
    ensures forall k :: 0 <= k < 9 && k != 6 && k != 7 ==> UnvotedColumns[k] == VotedColumns[k]
    ensures UnvotedColumns[6] != VotedColumns[6] && UnvotedColumns[7] != VotedColumns[7]
  {
  }

  // ---------------------------------------------------------------
  // The header rules
  // ---------------------------------------------------------------

  /** `col.strip().replace('\U{FEFF}', '')`. */
  function CleanCell(c: string): string {
    ReplaceChar(Strip(c), '\U{FEFF}', "")
  }

  function CleanHeader(h: seq<string>): (r: seq<string>)
    ensures |r| == |h| && forall k :: 0 <= k < |h| ==> r[k] == CleanCell(h[k])
  {
    seq(|h|, k requires 0 <= k < |h| => CleanCell(h[k]))
  }

  /** A leading byte-order mark and surrounding blanks do not hide a column name. */
  lemma CleanCellOfMarked(name: string)
    requires name != [] && !IsSpace(name[0]) && !IsSpace(name[|name| - 1])
    requires '\U{FEFF}' !in name
    ensures CleanCell("\U{FEFF}" + name) == name
    ensures CleanCell(name + " ") == name
  {
    var marked := "\U{FEFF}" + name;
    StripClean(marked);
    assert marked[1..] == name;
    MapCharsIdentity(name, '\U{FEFF}', "");
    var t := name + " ";
    assert TrimStart(t) == t;
    assert t[..|t| - 1] == name;
    TrimEndClean(name);
    assert TrimEnd(t) == name;
    MapCharsIdentity(name, '\U{FEFF}', "");
  }

  function Elements(s: seq<string>): set<string> {
    set c | c in s
  }

  function Missing(h: seq<string>, e: seq<string>): set<string> {
    Elements(e) - Elements(h)
  }

  function Extra(h: seq<string>, e: seq<string>): set<string> {
    Elements(h) - Elements(e)
  }

  /** The columns of the old schema that must no longer appear. */
  function Redundant(h: seq<string>): set<string> {
    {"row_index", "unnamed_col"} * Elements(h)
  }

  function Optional(b: bool, m: Message): seq<Message> {
    if b then [m] else []
  }

  /** The errors the header checks add, in the order the checks run. */
  function HeaderErrors(h: seq<string>, e: seq<string>): seq<Message> {
    Optional(|h| != |e|, ColumnCountMismatch(|h|, |e|))
    + Optional(Missing(h, e) != {}, MissingColumns(Missing(h, e)))
    + Optional(Redundant(h) != {}, RedundantColumns(Redundant(h)))
  }

  function HeaderWarnings(h: seq<string>, e: seq<string>): seq<Message> {
    Optional(Extra(h, e) != {}, ExtraColumns(Extra(h, e)))
  }

  /** The header passes iff it has the expected length, every expected name and no redundant name. */
  lemma HeaderAccepted(h: seq<string>, e: seq<string>)
    ensures HeaderErrors(h, e) == [] <==>
      |h| == |e| && (forall c :: c in e ==> c in h) && "row_index" !in h && "unnamed_col" !in h
  {
    if (forall c :: c in e ==> c in h) {
      assert Missing(h, e) == {};
    } else {
      var c :| c in e && c !in h;
      assert c in Missing(h, e);
    }
    if "row_index" in h {
      assert "row_index" in Redundant(h);
    }
    if "unnamed_col" in h {
      assert "unnamed_col" in Redundant(h);
    }
  }

  /** Extra names only warn. */
  lemma ExtraOnlyWarns(h: seq<string>, e: seq<string>)
    ensures HeaderWarnings(h, e) != [] <==> exists c :: c in h && c !in e
    ensures forall m :: m in HeaderErrors(h, e) ==> !m.ExtraColumns?
  {
    if exists c :: c in h && c !in e {
      var c :| c in h && c !in e;
      assert c in Extra(h, e);
    }
  }

  predicate Distinct(s: seq<string>) {
    forall i, j :: 0 <= i < j < |s| ==> s[i] != s[j]
  }

  lemma {:induction false} ElementsBound(s: seq<string>)
    ensures |Elements(s)| <= |s|
    ensures Distinct(s) ==> |Elements(s)| == |s|
    decreases |s|
  {
    if s != [] {
      var p := s[..|s| - 1];
      ElementsBound(p);
      assert Elements(s) == Elements(p) + {s[|s| - 1]};
      if Distinct(s) {
        assert s[|s| - 1] !in Elements(p);
        assert Distinct(p);
      }
    }
  }

  /**
   * With distinct expected names, a header with an extra name fails anyway:
   * either an expected name is missing or the header is too long.
   */
  lemma {:induction false} ExtraImpliesInvalid(h: seq<string>, e: seq<string>)
    requires Distinct(e)
    requires exists c :: c in h && c !in e
    ensures HeaderErrors(h, e) != []
  {
    var x :| x in h && x !in e;
    ElementsBound(h);
    ElementsBound(e);
    if Missing(h, e) == {} {
      assert Elements(e) + {x} <= Elements(h);
      assert |Elements(e) + {x}| == |e| + 1;
    }
  }

  lemma SchemasDistinct()
    ensures Distinct(UnvotedColumns) && Distinct(VotedColumns)
  {
  }

  // ---------------------------------------------------------------
  // The row checks
  // ---------------------------------------------------------------

  /** The errors for the cells of a correct-length row, column by column in schema order. */
  function ValueErrors(valid: Validator, cols: seq<string>, row: seq<string>, num: nat): seq<Message>
    requires |cols| == |row|
    decreases |cols|
  {
    if cols == [] then []
    else
      var n := |cols| - 1;
      ValueErrors(valid, cols[..n], row[..n], num) + Optional(!valid(cols[n], row[n]), InvalidValue(num, cols[n], row[n]))
  }

  predicate AllValid(valid: Validator, cols: seq<string>, row: seq<string>)
    requires |cols| == |row|
  {
    forall k :: 0 <= k < |cols| ==> valid(cols[k], row[k])
  }

  /** A row has no cell error iff all its cells are valid. */
  lemma {:induction false} ValueErrorsEmpty(valid: Validator, cols: seq<string>, row: seq<string>, num: nat)
    requires |cols| == |row|
    ensures ValueErrors(valid, cols, row, num) == [] <==> AllValid(valid, cols, row)
    decreases |cols|
  {
    if cols != [] {
      var n := |cols| - 1;
      ValueErrorsEmpty(valid, cols[..n], row[..n], num);
      assert AllValid(valid, cols, row) <==> AllValid(valid, cols[..n], row[..n]) && valid(cols[n], row[n]);
    }
  }

  /** Every invalid cell has an error naming the expected column at its position and its value. */
  lemma {:induction false} ValueErrorsComplete(valid: Validator, cols: seq<string>, row: seq<string>, num: nat, k: nat)
    requires |cols| == |row| && k < |cols| && !valid(cols[k], row[k])
    ensures InvalidValue(num, cols[k], row[k]) in ValueErrors(valid, cols, row, num)
    decreases |cols|
  {
    var n := |cols| - 1;
    if k < n {
      ValueErrorsComplete(valid, cols[..n], row[..n], num, k);
    }
  }

  /** Every cell error is about this row and a value its column's validator rejects. */
  lemma {:induction false} ValueErrorsSound(valid: Validator, cols: seq<string>, row: seq<string>, num: nat, m: Message)
    requires |cols| == |row| && m in ValueErrors(valid, cols, row, num)
    ensures m.InvalidValue? && m.row == num && !valid(m.column, m.value)
    decreases |cols|
  {
    var n := |cols| - 1;
    if m in ValueErrors(valid, cols[..n], row[..n], num) {
      ValueErrorsSound(valid, cols[..n], row[..n], num, m);
    }
  }

  /** The errors for one data row: one length error, or the cell errors. */
  function RowErrors(valid: Validator, cols: seq<string>, row: seq<string>, num: nat): seq<Message> {
    if |row| != |cols| then [RowLength(num, |cols|, |row|)] else ValueErrors(valid, cols, row, num)
  }

  predicate RowValid(valid: Validator, cols: seq<string>, row: seq<string>) {
    |row| == |cols| && AllValid(valid, cols, row)
  }

  lemma RowErrorsEmpty(valid: Validator, cols: seq<string>, row: seq<string>, num: nat)
    ensures RowErrors(valid, cols, row, num) == [] <==> RowValid(valid, cols, row)
  {
    if |row| == |cols| {
      ValueErrorsEmpty(valid, cols, row, num);
    }
  }

  /** The row errors of the given data rows, numbered from 1. */
  function SampleErrors(valid: Validator, cols: seq<string>, rows: seq<seq<string>>): seq<Message>
    decreases |rows|
  {
    if rows == [] then []
    else SampleErrors(valid, cols, rows[..|rows| - 1]) + RowErrors(valid, cols, rows[|rows| - 1], |rows|)
  }

  /** The number of data rows of the right length whose cells are all valid. */
  function CountValid(valid: Validator, cols: seq<string>, rows: seq<seq<string>>): (r: nat)
    ensures r <= |rows|
    decreases |rows|
  {
    if rows == [] then 0
    else CountValid(valid, cols, rows[..|rows| - 1]) + (if RowValid(valid, cols, rows[|rows| - 1]) then 1 else 0)
  }

  /** No row error at all iff every row is valid iff every row is counted as valid. */
  lemma {:induction false} SampleClean(valid: Validator, cols: seq<string>, rows: seq<seq<string>>)
    ensures SampleErrors(valid, cols, rows) == [] <==> forall j :: 0 <= j < |rows| ==> RowValid(valid, cols, rows[j])
    ensures CountValid(valid, cols, rows) == |rows| <==> forall j :: 0 <= j < |rows| ==> RowValid(valid, cols, rows[j])
    decreases |rows|
  {
    if rows != [] {
      var n := |rows| - 1;
      SampleClean(valid, cols, rows[..n]);
      RowErrorsEmpty(valid, cols, rows[n], |rows|);
      forall j | 0 <= j < n
        ensures rows[..n][j] == rows[j]
      {
      }
    }
  }

  /** Every data row that is not valid contributes at least one error. */
  lemma {:induction false} SampleErrorsBound(valid: Validator, cols: seq<string>, rows: seq<seq<string>>)
    ensures |SampleErrors(valid, cols, rows)| >= |rows| - CountValid(valid, cols, rows)
    decreases |rows|
  {
    if rows != [] {
      var n := |rows| - 1;
      SampleErrorsBound(valid, cols, rows[..n]);
      RowErrorsEmpty(valid, cols, rows[n], |rows|);
    }
  }

  /** The row errors as reported: all of them, or the first ten and a count of the rest. */
  function Capped(errs: seq<Message>): seq<Message> {
    if |errs| > ReportedRowErrors then errs[..ReportedRowErrors] + [MoreErrors(|errs| - ReportedRowErrors)]
    else errs
  }

  /** At most eleven messages are reported, each a real row error except a final count. */
  lemma CappedShape(errs: seq<Message>)
    ensures |Capped(errs)| == Min(|errs|, ReportedRowErrors + 1)
    ensures forall k :: 0 <= k < |Capped(errs)| && k < ReportedRowErrors ==> Capped(errs)[k] == errs[k]
    ensures |errs| > ReportedRowErrors ==> Capped(errs)[ReportedRowErrors] == MoreErrors(|errs| - ReportedRowErrors)
  {
  }

  // ---------------------------------------------------------------
  // The validator
  // ---------------------------------------------------------------

  function Sample(data: seq<seq<string>>): seq<seq<string>> {
    data[..Min(|data|, SampleSize)]
  }

  /**
   * The row loop asks a broken reader for the row after the last one:
   * it does so unless it stopped after the sample.
   */
  predicate Interrupted(data: seq<seq<string>>, broken: bool) {
    broken && |data| <= SampleSize
  }

  /**
   * What the results record holds once a file with header `h` and data
   * rows `data` has been read.  When the row loop is interrupted, the
   * header checks and the row statistics stay, the row errors collected
   * so far are lost, and the read error makes the file invalid.
   */
  predicate Reports(r: Results, e: seq<string>, h: seq<string>, data: seq<seq<string>>, broken: bool) {
    var rowErrs := SampleErrors(ValidValue, e, Sample(data));
    && r.totalRows == Min(|data|, SampleSize + 1)
    && r.validRows == CountValid(ValidValue, e, Sample(data))
    && r.warnings == HeaderWarnings(h, e)
    && if Interrupted(data, broken) then
         r.errors == HeaderErrors(h, e) + [ReadError] && !r.valid
       else
         && r.errors == HeaderErrors(h, e) + Capped(rowErrs)
         && (r.valid <==> HeaderErrors(h, e) == [] && |rowErrs| <= ToleratedRowErrors)
  }

  /**
   * `validate_csv_format`.  An unknown type, a missing file, an empty
   * file or a header line that cannot be read gives one error and nothing
   * else; otherwise the header is cleaned and checked, at most 100 data
   * rows are checked against the schema by position, and the row errors
   * are reported capped.
   */
  method ValidateCsvFormat(file: Option<CsvFile>, tableType: string) returns (r: Results)
    ensures ExpectedColumns(tableType).None? ==> r == Results(false, [UnknownTableType(tableType)], [], 0, 0)
    ensures ExpectedColumns(tableType).Some? && file.None? ==> r == Results(false, [FileNotFound], [], 0, 0)
    ensures ExpectedColumns(tableType).Some? && file == Some(CsvFile([], false)) ==> r == Results(false, [FileEmpty], [], 0, 0)
    ensures ExpectedColumns(tableType).Some? && file == Some(CsvFile([], true)) ==> r == Results(false, [ReadError], [], 0, 0)
    ensures ExpectedColumns(tableType).Some? && file.Some? && file.value.lines != [] ==>
      Reports(r, ExpectedColumns(tableType).value, CleanHeader(file.value.lines[0]), file.value.lines[1..], file.value.broken)
    ensures r.validRows <= Min(r.totalRows, SampleSize)
  {
    r := Results(true, [], [], 0, 0);
    var schema := ExpectedColumns(tableType);
    if schema.None? {
      r := r.(valid := false, errors := r.errors + [UnknownTableType(tableType)]);
      return;
    }
    var expected := schema.value;
    if file.None? {
      r := r.(valid := false, errors := r.errors + [FileNotFound]);
      return;
    }
    var lines := file.value.lines;
    if lines == [] {
      if file.value.broken {
        r := r.(valid := false, errors := r.errors + [ReadError]);
      } else {
        r := r.(valid := false, errors := r.errors + [FileEmpty]);
      }
      return;
    }
    r := CheckFile(r, expected, lines, file.value.broken);
  }

  /** The checks on a file that has a header line. */
  method CheckFile(r0: Results, expected: seq<string>, lines: seq<seq<string>>, broken: bool) returns (r: Results)
    requires r0 == Results(true, [], [], 0, 0) && lines != []
    ensures Reports(r, expected, CleanHeader(lines[0]), lines[1..], broken)
    ensures r.validRows <= Min(r.totalRows, SampleSize)
  {
    var header := CleanHeader(lines[0]);
    r := CheckHeader(r0, header, expected);
    var rowErrors, total, validRows, raised := CheckRows(ValidValue, expected, lines[1..], broken);
    r := r.(totalRows := total, validRows := validRows);
    if raised {
      r := r.(valid := false, errors := r.errors + [ReadError]);
    } else {
      r := ReportRowErrors(r, rowErrors);
    }
  }

  /** Appends the row errors, capped, and clears the verdict when there are more than five. */
  method ReportRowErrors(r0: Results, rowErrors: seq<Message>) returns (r: Results)
    ensures r == r0.(valid := r0.valid && |rowErrors| <= ToleratedRowErrors, errors := r0.errors + Capped(rowErrors))
  {
    r := r0;
    if rowErrors != [] {
      if |rowErrors| > ReportedRowErrors {
        r := r.(errors := r.errors + rowErrors[..ReportedRowErrors]);
        r := r.(errors := r.errors + [MoreErrors(|rowErrors| - ReportedRowErrors)]);
      } else {
        r := r.(errors := r.errors + rowErrors);
      }
      if |rowErrors| > ToleratedRowErrors {
        r := r.(valid := false);
      }
    }
  }

  /** The column-count, missing-column, extra-column and redundant-column checks, in that order. */
  method CheckHeader(r0: Results, header: seq<string>, expected: seq<string>) returns (r: Results)
    requires r0.valid && r0.errors == [] && r0.warnings == []
    ensures r == r0.(valid := HeaderErrors(header, expected) == [],
                     errors := HeaderErrors(header, expected),
                     warnings := HeaderWarnings(header, expected))
  {
    r := r0;
    if |header| != |expected| {
      r := r.(valid := false, errors := r.errors + [ColumnCountMismatch(|header|, |expected|)]);
    }
    var missing := Elements(expected) - Elements(header);
    var extra := Elements(header) - Elements(expected);
    if missing != {} {
      r := r.(valid := false, errors := r.errors + [MissingColumns(missing)]);
    }
    if extra != {} {
      r := r.(warnings := r.warnings + [ExtraColumns(extra)]);
    }
    var redundant := {"row_index", "unnamed_col"} * Elements(header);
    if redundant != {} {
      r := r.(valid := false, errors := r.errors + [RedundantColumns(redundant)]);
    }
  }

  lemma SampleSnoc(valid: Validator, cols: seq<string>, data: seq<seq<string>>, i: nat)
    requires i < |data|
    ensures SampleErrors(valid, cols, data[..i + 1]) == SampleErrors(valid, cols, data[..i]) + RowErrors(valid, cols, data[i], i + 1)
    ensures CountValid(valid, cols, data[..i + 1]) == CountValid(valid, cols, data[..i]) + (if RowValid(valid, cols, data[i]) then 1 else 0)
  {
    assert data[..i + 1][..i] == data[..i];
  }

  /**
   * The row loop: at most `SampleSize` rows are checked; `totalRows` is
   * the last row number seen; `raised` says the loop ran past the last
   * row of a broken reader.
   */
  method CheckRows(valid: Validator, expected: seq<string>, data: seq<seq<string>>, broken: bool)
    returns (rowErrors: seq<Message>, totalRows: nat, validRows: nat, raised: bool)
    ensures rowErrors == SampleErrors(valid, expected, Sample(data))
    ensures validRows == CountValid(valid, expected, Sample(data))
    ensures totalRows == Min(|data|, SampleSize + 1)
    ensures raised == Interrupted(data, broken)
  {
    rowErrors, totalRows, validRows := [], 0, 0;
    var i := 0;
    while i < |data|
      invariant i <= |data| && i <= SampleSize && totalRows == i
      invariant rowErrors == SampleErrors(valid, expected, data[..i])
      invariant validRows == CountValid(valid, expected, data[..i])
    {
      var rowNum := i + 1;
      totalRows := rowNum;
      if rowNum > SampleSize {
        break;
      }
      var row := data[i];
      SampleSnoc(valid, expected, data, i);
      if |row| != |expected| {
        rowErrors := rowErrors + [RowLength(rowNum, |expected|, |row|)];
      } else {
        var validRow;
        rowErrors, validRow := CheckValues(valid, rowErrors, expected, row, rowNum);
        if validRow {
          validRows := validRows + 1;
        }
      }
      i := i + 1;
    }
    raised := broken && i == |data|;
    assert data[..i] == Sample(data);
  }

  /** The per-cell loop over `zip(expected_columns, row)`. */
  method CheckValues(valid: Validator, acc: seq<Message>, cols: seq<string>, row: seq<string>, num: nat) returns (errs: seq<Message>, validRow: bool)
    requires |cols| == |row|
    ensures errs == acc + ValueErrors(valid, cols, row, num)
    ensures validRow <==> AllValid(valid, cols, row)
  {
    errs, validRow := acc, true;
    var j := 0;
    while j < |cols|
      invariant j <= |cols|
      invariant errs == acc + ValueErrors(valid, cols[..j], row[..j], num)
      invariant validRow <==> AllValid(valid, cols[..j], row[..j])
    {
      assert cols[..j + 1][..j] == cols[..j] && row[..j + 1][..j] == row[..j];
      if !valid(cols[j], row[j]) {
        errs := errs + [InvalidValue(num, cols[j], row[j])];
        validRow := false;
      }
      j := j + 1;
    }
    assert cols[..j] == cols && row[..j] == row;
  }

  /** With at most five bad rows among the first hundred, a clean header passes. */
  lemma {:induction false} CleanSamplePasses(r: Results, e: seq<string>, h: seq<string>, data: seq<seq<string>>, broken: bool)
    requires Reports(r, e, h, data, broken) && HeaderErrors(h, e) == [] && !Interrupted(data, broken)
    requires forall j :: 0 <= j < |Sample(data)| ==> RowValid(ValidValue, e, Sample(data)[j])
    ensures r.valid && r.errors == [] && r.validRows == Min(|data|, SampleSize)
  {
    SampleClean(ValidValue, e, Sample(data));
  }

  /** More than five invalid rows in the sample always make the file invalid. */
  lemma {:induction false} ManyBadRowsFail(r: Results, e: seq<string>, h: seq<string>, data: seq<seq<string>>, broken: bool)
    requires Reports(r, e, h, data, broken)
    requires |Sample(data)| - CountValid(ValidValue, e, Sample(data)) > ToleratedRowErrors
    ensures !r.valid && r.errors != []
  {
    SampleErrorsBound(ValidValue, e, Sample(data));
  }

  /**
   * A reader that breaks within the first hundred data rows always makes
   * the file invalid, however clean the rows read before were; one that
   * breaks later is never noticed.
   */
  lemma ReadErrorFails(r: Results, e: seq<string>, h: seq<string>, data: seq<seq<string>>, broken: bool)
    requires Reports(r, e, h, data, broken)
    ensures Interrupted(data, broken) ==> !r.valid && ReadError in r.errors && r.totalRows == |data|
    ensures |data| > SampleSize ==> Reports(r, e, h, data, false)
  {
  }
}
