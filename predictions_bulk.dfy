/**
 * import_predictions_bulk.py: reads a predictions CSV, collects the
 * tuples of the rows that convert, and replaces the contents of
 * `proposals_predictions` with them: a DELETE and one `executemany` in a
 * single transaction, committed together or rolled back together.
 *
 * The table is the list of its rows; `ok` says whether the `executemany`
 * and the commit succeed.  The float columns are left out of the tuple:
 * `parse_float` catches its ValueError, so they never fail a row.
 */
module PredictionsBulk {
  import opened Wrappers
  import opened PyText
  import opened PyNum
  import opened Dates
  import opened RowStream
  import ProposalsPredictions
  import PredictionsSds

  type Row = map<string, string>

  /** `parse_date`: blank gives None; the stripped text is read month-first with slashes. */
  function ParseDate(strptime: Strptime, v: string): (r: Option<Date>)
    ensures Strip(v) == [] ==> r == None
    ensures Strip(v) != [] ==> r == strptime(Strip(v), MdySlash)
  {
    if Strip(v) == [] then None else strptime(Strip(v), MdySlash)
  }

  /**
   * Unlike `parse_date` of import_proposals_predictions.py, surrounding
   * blanks do not matter here.
   */
  lemma DateTrimmed(strptime: Strptime, s: string)
    ensures ParseDate(strptime, Strip(s)) == ParseDate(strptime, s)
  {
    StripIdempotent(s);
  }

  /**
   * `parse_int`: blank and the exact text `-1` give None; anything else
   * goes to a strict `int()`, whose ValueError gives None.
   */
  function ParseInt(v: string): (r: Option<int>)
    ensures v == "-1" ==> r == None
    ensures r.Some? ==> ParseIntStrict(v) == r
    ensures v != "-1" && ParseIntStrict(v).Some? ==> r == ParseIntStrict(v)
  {
    if Strip(v) == [] || v == "-1" then None else ParseIntStrict(v)
  }

  /** A decimal point is never read: `'123.0'` gives None. */
  lemma PointRejected(v: string)
    requires '.' in Strip(v)
    ensures ParseInt(v) == None
  {
    IntStrictRejectsPoint(v);
  }

  /** A rendered integer reads back as itself, except `-1`, which gives None. */
  lemma ParseIntOfInteger(n: int)
    ensures ParseInt(IntToString(n)) == (if n == -1 then None else Some(n))
  {
    ParseIntOfIntString(n);
    if n == -1 {
      MinusOneText();
    }
    OnlyMinusOneText(n);
  }

  lemma MinusOneText()
    ensures IntToString(-1) == "-1"
  {
    assert DigitChar(1) == '1';
    assert NatToString(1) == "1";
  }

  lemma OnlyMinusOneText(n: int)
    ensures IntToString(n) == "-1" ==> n == -1
  {
    var s := IntToString(n);
    if n >= 0 {
      assert IsDigit(s[0]);
    } else {
      var d := NatToString(-n);
      assert s[1..] == d;
      if d == "1" {
        assert DecValue(d) == DigitValue('1');
      }
    }
  }

  /**
   * `parse_bool`: blank gives None; the stripped, upper-cased text `TRUE`
   * gives True and every other value gives False.
   */
  function ParseBool(v: string): (r: Option<bool>)
    ensures r.None? <==> Strip(v) == []
    ensures r == Some(true) <==> Strip(v) != [] && Upper(Strip(v)) == "TRUE"
  {
    if Strip(v) == [] then None else Some(Upper(Strip(v)) == "TRUE")
  }

  /**
   * A word `safe_bool` does not know (neither a true nor a false word)
   * is False here where `safe_bool` gives None.
   */
  lemma UnknownWordIsFalse(v: string)
    requires Strip(v) != []
    requires !ProposalsPredictions.TrueWord(Upper(Strip(v))) && !ProposalsPredictions.FalseWord(Upper(Strip(v)))
    ensures ParseBool(v) == Some(false)
    ensures ProposalsPredictions.SafeBool(Some(v)) == None
  {
  }

  /** `parse_bool` ignores case. */
  lemma ParseBoolIgnoresCase(v: string)
    ensures ParseBool(Lower(v)) == ParseBool(v)
  {
    StripLower(v);
    ProposalsPredictions.UpperOfLower(Strip(v));
    ProposalsPredictions.LowerBlank(v);
  }

  /** `row['director_name'] if row['director_name'] != '-1' else None`: an empty name is kept. */
  function DirectorName(v: string): (r: Option<string>)
    ensures r.None? <==> v == "-1"
    ensures r.Some? ==> r.value == v
  {
    if v == "-1" then None else Some(v)
  }

  /** Unlike import_proposals_predictions.py, an empty director name is stored as it is. */
  lemma EmptyNameKept()
    ensures DirectorName("") == Some("")
    ensures ProposalsPredictions.DirectorName(Some("")) == None
  {
  }

  /** The columns copied with `row[k] or None`, in the order of the INSERT. */
  const TextKeys: seq<string> := [
    "final_key", "job_number", "issuer_name", "service", "cusip6", "mgmt_rec", "proposal", "proposal_type",
    "Category", "Subcategory",
    "Against (%) - From Prospectus 2026 File", "Abstain/Withhold (%) - From Prospectus 2026 File"]

  /** The float columns of the INSERT, which the tuple holds but the model does not. */
  const FloatCount: nat := 27

  /** The values of one row tuple, without its float columns. */
  datatype BulkPrediction = BulkPrediction(
    proposalKey: Option<int>, directorKey: Option<int>, directorNumber: Option<int>, directorName: Option<string>,
    texts: seq<Option<string>>, dates: seq<Option<Date>>, flags: seq<Option<bool>>)

  /** The number of values of the tuple, float columns included. */
  function Width(r: BulkPrediction): nat {
    4 + |r.texts| + |r.dates| + |r.flags| + FloatCount
  }

  /** The tuple of one row; `None` is the KeyError of a missing column, which skips the row. */
  function ProcessRow(strptime: Strptime, row: Row): (r: Option<BulkPrediction>)
    ensures r.None? <==> !PredictionsSds.HasColumns(row)
  {
    if !PredictionsSds.HasColumns(row) then None
    else Some(BulkPrediction(
      ParseInt(PredictionsSds.At(row, "proposal_master_skey")), ParseInt(PredictionsSds.At(row, "director_master_skey")),
      ParseInt(PredictionsSds.At(row, "director_number")), DirectorName(PredictionsSds.At(row, "director_name")),
      seq(|TextKeys|, i requires 0 <= i < |TextKeys| => PredictionsSds.OrNone(PredictionsSds.At(row, TextKeys[i]))),
      seq(|PredictionsSds.DateKeys|, i requires 0 <= i < |PredictionsSds.DateKeys| =>
        ParseDate(strptime, PredictionsSds.At(row, PredictionsSds.DateKeys[i]))),
      seq(|PredictionsSds.BoolKeys|, i requires 0 <= i < |PredictionsSds.BoolKeys| =>
        ParseBool(PredictionsSds.At(row, PredictionsSds.BoolKeys[i])))))
  }

  /** A converted row has one value per column of the INSERT. */
  lemma WidthOfRow(strptime: Strptime, row: Row)
    requires PredictionsSds.HasColumns(row)
    ensures Width(ProcessRow(strptime, row).value) == PredictionsSds.ColumnCount
  {
    var r := ProcessRow(strptime, row).value;
    assert |r.texts| == 12 && |r.dates| == 3 && |r.flags| == 2;
  }

  function Convert(strptime: Strptime): Row -> Option<BulkPrediction> {
    row => ProcessRow(strptime, row)
  }

  /** The row loop: the tuples of the rows that convert, in file order. */
  method CollectRows(strptime: Strptime, rows: seq<Row>) returns (data: seq<BulkPrediction>)
    ensures data == Good(Convert(strptime), rows)
    ensures |data| + Bad(Convert(strptime), rows) == |rows|
  {
    data := [];
    var i := 0;
    while i < |rows|
      invariant i <= |rows|
      invariant data == Good(Convert(strptime), rows[..i])
    {
      GoodSnoc(Convert(strptime), rows, i);
      var t := ProcessRow(strptime, rows[i]);
      if t.Some? {
        data := data + [t.value];
      }
      i := i + 1;
    }
    assert rows[..i] == rows;
  }

  /**
   * Whether `executemany` with a statement of `placeholders` markers and
   * the commit after it go through: an empty list sends nothing, and the
   * driver refuses tuples whose length is not the number of markers.
   */
  predicate Stored(data: seq<BulkPrediction>, placeholders: nat, ok: bool) {
    data == [] || ((forall r :: r in data ==> Width(r) == placeholders) && ok)
  }

  /**
   * `import_csv_data` with a statement of `placeholders` markers: the
   * table afterwards holds the collected tuples when the transaction
   * commits and its old rows otherwise.
   */
  method Replace(strptime: Strptime, table0: seq<BulkPrediction>, rows: seq<Row>, placeholders: nat, ok: bool)
    returns (table: seq<BulkPrediction>)
    ensures var data := Good(Convert(strptime), rows);
      table == if Stored(data, placeholders, ok) then data else table0
  {
    var data := CollectRows(strptime, rows);
    if data == [] || ((forall r :: r in data ==> Width(r) == placeholders) && ok) {
      table := data;
    } else {
      table := table0;
    }
  }

  /** Every collected tuple has one value per column. */
  lemma CollectedWidth(strptime: Strptime, rows: seq<Row>)
    ensures forall r :: r in Good(Convert(strptime), rows) ==> Width(r) == PredictionsSds.ColumnCount
  {
    forall r | r in Good(Convert(strptime), rows)
      ensures Width(r) == PredictionsSds.ColumnCount
    {
      var j := GoodFrom(Convert(strptime), rows, r);
      WidthOfRow(strptime, rows[j]);
    }
  }

  /** Every good value is the value of some row. */
  lemma {:induction false} GoodFrom<R, T>(f: R -> Option<T>, rows: seq<R>, t: T) returns (j: nat)
    requires t in Good(f, rows)
    ensures j < |rows| && f(rows[j]) == Some(t)
    decreases |rows|
  {
    var front := rows[..|rows| - 1];
    var last := rows[|rows| - 1];
    if f(last) == Some(t) {
      j := |rows| - 1;
    } else {
      assert t in Good(f, front);
      j := GoodFrom(f, front, t);
      assert front[j] == rows[j];
    }
  }

  /** `import_csv_data` as written: 47 markers for 48 columns. */
  method ImportCsvDataAsWritten(strptime: Strptime, table0: seq<BulkPrediction>, rows: seq<Row>, ok: bool)
    returns (table: seq<BulkPrediction>)
    ensures var data := Good(Convert(strptime), rows);
      table == if Stored(data, PredictionsSds.WrittenPlaceholders, ok) then data else table0
  {
    table := Replace(strptime, table0, rows, PredictionsSds.WrittenPlaceholders, ok);
  }

  /**
   * As written, no row is ever stored: a file with a good row leaves the
   * old table in place, and a file without one empties it.
   */
  lemma AsWrittenStoresNothing(strptime: Strptime, table0: seq<BulkPrediction>, rows: seq<Row>, ok: bool)
    ensures var data := Good(Convert(strptime), rows);
      && (data != [] ==> !Stored(data, PredictionsSds.WrittenPlaceholders, ok))
      && (data == [] ==> Stored(data, PredictionsSds.WrittenPlaceholders, ok))
  {
    var data := Good(Convert(strptime), rows);
    CollectedWidth(strptime, rows);
    if data != [] {
      assert data[0] in data;
    }
  }

  /** `import_csv_data` with one marker per column. */
  method ImportCsvData(strptime: Strptime, table0: seq<BulkPrediction>, rows: seq<Row>, ok: bool)
    returns (table: seq<BulkPrediction>)
    ensures var data := Good(Convert(strptime), rows);
      table == if Stored(data, PredictionsSds.ColumnCount, ok) then data else table0
  {
    table := Replace(strptime, table0, rows, PredictionsSds.ColumnCount, ok);
  }

  /**
   * With one marker per column the table ends up holding exactly the rows
   * that convert, in file order, when the transaction goes through, and
   * its old rows (the DELETE undone) when it fails.
   */
  lemma ReplacedByGoodRows(strptime: Strptime, table0: seq<BulkPrediction>, rows: seq<Row>, ok: bool)
    ensures var data := Good(Convert(strptime), rows);
      && (ok ==> Stored(data, PredictionsSds.ColumnCount, ok))
      && (!ok && data != [] ==> !Stored(data, PredictionsSds.ColumnCount, ok))
  {
    CollectedWidth(strptime, rows);
  }
}
