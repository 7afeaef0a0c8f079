/**
 * import_predictions_named.py: appends the rows of a predictions CSV to
 * `proposals_predictions`, one INSERT with named parameters per row and
 * one commit after the last row.  Nothing catches an exception: a row
 * that raises, or an INSERT that fails, ends the script before the
 * commit, and the rows inserted so far are never committed.
 *
 * The table is the list of its rows; `ok(i)` says whether the INSERT of
 * row `i` succeeds.  The float columns only matter through the
 * ValueError of `float()`; their values are not part of the tuple.
 */
module PredictionsNamed {
  import opened Wrappers
  import opened PyText
  import opened PyNum
  import opened Dates
  import opened RowStream
  import opened CappedLoop
  import ProposalsPredictions
  import PredictionsSds
  import PredictionsBulk

  type Row = map<string, string>

  /**
   * `int(v) if v else None` for `proposal_master_skey`: the empty text
   * gives None, anything else must be an integer.  The outer `None` is the
   * ValueError.
   */
  function ProposalKey(v: string): (r: Option<Option<int>>)
    ensures v == "" ==> r == Some(None)
    ensures v != "" ==> (r.Some? <==> ParseIntStrict(v).Some?) && (r.Some? ==> r.value == ParseIntStrict(v))
  {
    if v == "" then Some(None)
    else match ParseIntStrict(v)
      case None => None
      case Some(k) => Some(Some(k))
  }

  /** `int(v) if v not in ['', '-1'] else None` for the director key and number. */
  function DirectorKey(v: string): (r: Option<Option<int>>)
    ensures v == "" || v == "-1" ==> r == Some(None)
    ensures v != "" && v != "-1" ==> r == ProposalKey(v)
  {
    if v == "" || v == "-1" then Some(None) else ProposalKey(v)
  }

  /**
   * A rendered integer is read back by both conversions, except that the
   * director conversions turn `-1` into None while the proposal key keeps it.
   */
  lemma KeysOfInteger(n: int)
    ensures ProposalKey(IntToString(n)) == Some(Some(n))
    ensures DirectorKey(IntToString(n)) == Some(if n == -1 then None else Some(n))
  {
    ParseIntOfIntString(n);
    if n == -1 {
      PredictionsBulk.MinusOneText();
    }
    PredictionsBulk.OnlyMinusOneText(n);
  }

  /**
   * `True if v.upper() == 'TRUE' else False if v.upper() == 'FALSE' else
   * None`: the value is not stripped.
   */
  function Flag(v: string): (r: Option<bool>)
    ensures r == Some(true) <==> Upper(v) == "TRUE"
    ensures r == Some(false) <==> Upper(v) == "FALSE"
  {
    if Upper(v) == "TRUE" then Some(true) else if Upper(v) == "FALSE" then Some(false) else None
  }

  /** A flag with a leading blank is unknown, even ` TRUE`. */
  lemma PaddedFlagUnknown(v: string)
    requires v != [] && IsSpace(v[0])
    ensures Flag(v) == None
  {
    assert Upper(v)[0] == UpperChar(v[0]);
  }

  /** `parse_date` has the text of import_proposals_predictions.py: the value is not trimmed. */
  function ParseDate(strptime: Strptime, v: string): (r: Option<string>)
    ensures Strip(v) == [] ==> r == None
    ensures Strip(v) != [] ==> (r.Some? <==> strptime(v, MdySlash).Some?)
  {
    ProposalsPredictions.ParseDate(strptime, Some(v))
  }

  /** The columns copied with `v if v else None`, in the order of the INSERT. */
  const TextKeys: seq<string> := PredictionsBulk.TextKeys

  /** The columns read with `float(v) if v else None`. */
  const FloatKeys: seq<string> := PredictionsSds.NumericKeys[3..]

  /** No float column raises: each is empty or a number `float()` accepts. */
  predicate FloatsRead(row: Row) {
    forall i :: 0 <= i < |FloatKeys| ==> PredictionsSds.At(row, FloatKeys[i]) == "" || ParseFloat(PredictionsSds.At(row, FloatKeys[i])).Some?
  }

  /** The values of one row's parameters, without the float columns. */
  datatype NamedPrediction = NamedPrediction(
    proposalKey: Option<int>, directorKey: Option<int>, directorNumber: Option<int>, directorName: Option<string>,
    texts: seq<Option<string>>, dates: seq<Option<string>>, flags: seq<Option<bool>>)

  /**
   * The parameters of one row; `None` when building them raises: a
   * missing column, a key that is not an integer, or a float column that
   * is not a number.
   */
  function ProcessRow(strptime: Strptime, row: Row): (r: Option<NamedPrediction>)
    ensures r.Some? ==> PredictionsSds.HasColumns(row) && FloatsRead(row)
  {
    var at := k => PredictionsSds.At(row, k);
    if !PredictionsSds.HasColumns(row) || !FloatsRead(row) then None
    else match (ProposalKey(at("proposal_master_skey")), DirectorKey(at("director_master_skey")), DirectorKey(at("director_number")))
      case (Some(p), Some(d), Some(n)) =>
        Some(NamedPrediction(p, d, n,
          ProposalsPredictions.DirectorName(Some(at("director_name"))),
          seq(|TextKeys|, i requires 0 <= i < |TextKeys| => PredictionsSds.OrNone(at(TextKeys[i]))),
          seq(|PredictionsSds.DateKeys|, i requires 0 <= i < |PredictionsSds.DateKeys| =>
            ParseDate(strptime, at(PredictionsSds.DateKeys[i]))),
          seq(|PredictionsSds.BoolKeys|, i requires 0 <= i < |PredictionsSds.BoolKeys| =>
            Flag(at(PredictionsSds.BoolKeys[i])))))
      case _ => None
  }

  /** A row is built exactly when its columns are there, its keys are integers and its floats are numbers. */
  lemma ProcessRowFails(strptime: Strptime, row: Row)
    ensures var at := k => PredictionsSds.At(row, k);
      ProcessRow(strptime, row).Some? <==>
        && PredictionsSds.HasColumns(row) && FloatsRead(row)
        && ProposalKey(at("proposal_master_skey")).Some?
        && DirectorKey(at("director_master_skey")).Some? && DirectorKey(at("director_number")).Some?
  {
  }

  function Convert(strptime: Strptime): Row -> Option<NamedPrediction> {
    row => ProcessRow(strptime, row)
  }

  /**
   * `import_csv_to_mysql` after the file is open: `raised` is the
   * exception that ends the script, `table` what the table holds
   * afterwards and `count` the rows inserted before the end.
   */
  method ImportCsvToMysql(strptime: Strptime, table0: seq<NamedPrediction>, rows: seq<Row>, ok: nat -> bool)
    returns (table: seq<NamedPrediction>, count: nat, raised: bool)
    ensures var p := Processed(Id, Attempts(Convert(strptime), ok, rows));
      && raised == p.1
      && table == (if raised then table0 else table0 + p.0)
      && count == |p.0|
  {
    ghost var outs := Attempts(Convert(strptime), ok, rows);
    var pending: seq<NamedPrediction> := [];
    count := 0;
    var i := 0;
    while i < |rows|
      invariant i <= |rows| && count == |pending|
      invariant Processed(Id, outs[..i]) == (pending, false)
    {
      ProcessedSnoc(Id, outs, i);
      var data := ProcessRow(strptime, rows[i]);
      if data.None? || !ok(i) {
        ProcessedGrows(Id, outs, i + 1);
        return table0, count, true;
      }
      pending := pending + [data.value];
      count := count + 1;
      i := i + 1;
    }
    assert outs[..i] == outs;
    return table0 + pending, count, false;
  }

  /**
   * All or nothing: the table gains one row per CSV row, in file order,
   * exactly when every row converts and every INSERT succeeds; otherwise
   * it is left as it was.
   */
  lemma AllOrNothing(strptime: Strptime, rows: seq<Row>, ok: nat -> bool)
    ensures var p := Processed(Id, Attempts(Convert(strptime), ok, rows));
      && (!p.1 <==> forall j :: 0 <= j < |rows| ==> ProcessRow(strptime, rows[j]).Some? && ok(j))
      && (!p.1 ==> |p.0| == |rows| && forall j :: 0 <= j < |rows| ==> p.0[j] == ProcessRow(strptime, rows[j]).value)
  {
    FirstFailure(Convert(strptime), ok, rows);
  }
}
