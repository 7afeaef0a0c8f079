/**
 * import_predictions_sds.py: loads one predictions CSV into
 * `proxy_sds.proposals_predictions`, one INSERT per row, counting failing
 * rows and stopping after more than 10, with a single commit at the end.
 *
 * A row is read with `row[k]`, so a column the header lacks raises a
 * KeyError on every row; no converter raises otherwise.
 */
module PredictionsSds {
  import opened Wrappers
  import opened PyText
  import opened PyNum
  import opened Dates
  import opened RowStream
  import opened CappedLoop
  import Batching
  import ProposalsPredictions

  type Row = map<string, string>

  const ErrorCap: nat := 10

  /** The formats `parse_date` tries, in order. */
  const DateFormats: seq<Format> := [MdySlash, YmdDash, MdyDash]

  /** `parse_date`: blank gives None; otherwise the first format that reads the stripped text. */
  function ParseDate(strptime: Strptime, v: string): Option<Date> {
    if Strip(v) == [] then None else TryFormats(strptime, Strip(v), DateFormats)
  }

  /** A month-first date with slashes wins over the other two formats. */
  lemma SlashDateFirst(strptime: Strptime, v: string)
    requires Strip(v) != [] && strptime(Strip(v), MdySlash).Some?
    ensures ParseDate(strptime, v) == strptime(Strip(v), MdySlash)
  {
    EarlierFormatWins(strptime, Strip(v), DateFormats, 0);
  }

  /** What `parse_numeric` returns: a Python int or a float (its rounding is not modelled). */
  datatype Numeric = IntNum(i: int) | FloatNum(n: Num)

  /** `'E+' in value or 'E-' in value or 'e+' in value or 'e-' in value`. */
  predicate SignedExponent(v: string) {
    Contains(v, "E+") || Contains(v, "E-") || Contains(v, "e+") || Contains(v, "e-")
  }

  /**
   * `parse_numeric`: blank gives None; a value with a signed exponent or a
   * decimal point goes through `float()`, any other through `int()`; a
   * ValueError gives None.
   */
  function ParseNumeric(v: string): (r: Option<Numeric>)
    ensures Strip(v) == [] ==> r == None
    ensures r.Some? && r.value.IntNum? ==> !SignedExponent(v) && '.' !in v && ParseIntStrict(v) == Some(r.value.i)
    ensures r.Some? && r.value.FloatNum? ==> (SignedExponent(v) || '.' in v) && ParseFloat(v) == Some(r.value.n)
  {
    if Strip(v) == [] then None
    else if SignedExponent(v) || '.' in v then
      match ParseFloat(v)
      case None => None
      case Some(n) => Some(FloatNum(n))
    else
      match ParseIntStrict(v)
      case None => None
      case Some(i) => Some(IntNum(i))
  }

  /** `str(n)` of an integer reads back as that integer, not as a float. */
  lemma IntegerTextIsInt(n: int)
    ensures ParseNumeric(IntToString(n)) == Some(IntNum(n))
  {
    var s := IntToString(n);
    IntToStringParts(n);
    ParseIntOfIntString(n);
    IntegerChars(n);
    NoNeedle(s, "E+");
    NoNeedle(s, "E-");
    NoNeedle(s, "e+");
    NoNeedle(s, "e-");
  }

  /** An integer renders with digits and a leading minus only. */
  lemma IntegerChars(n: int)
    ensures forall c :: c in IntToString(n) ==> IsDigit(c) || c == '-'
  {
    var d := NatToString(if n < 0 then -n else n);
    if n < 0 {
      assert IntToString(n) == "-" + d;
    }
  }

  /** A text made of digits and `-` contains no text that starts with a letter. */
  lemma {:induction false} NoNeedle(s: string, needle: string)
    requires forall c :: c in s ==> IsDigit(c) || c == '-'
    requires needle != [] && !IsDigit(needle[0]) && needle[0] != '-'
    ensures !Contains(s, needle)
    decreases |s|
  {
    if s != [] {
      assert s[0] in s;
      if |needle| <= |s| {
        assert s[..|needle|][0] != needle[0];
      }
      assert forall c :: c in s[1..] ==> c in s;
      NoNeedle(s[1..], needle);
    }
  }

  /**
   * An exponent without a sign is not read as a number: without a point
   * the value goes to `int()`, which rejects the letter.
   */
  lemma UnsignedExponentRejected(v: string, k: nat)
    requires !SignedExponent(v) && '.' !in v
    requires 0 < k < |Strip(v)| && (Strip(v)[k] == 'e' || Strip(v)[k] == 'E')
    ensures ParseNumeric(v) == None
  {
    var t := Strip(v);
    var (neg, body) := SplitSign(t);
    var j := if body == t then k else k - 1;
    assert 0 <= j < |body| && !IsDigit(body[j]);
  }

  /** The words `parse_boolean` reads, after stripping and upper-casing. */
  predicate TrueWord(w: string) {
    w == "TRUE" || w == "T" || w == "1" || w == "YES" || w == "Y"
  }

  predicate FalseWord(w: string) {
    w == "FALSE" || w == "F" || w == "0" || w == "NO" || w == "N"
  }

  /** No word reads both ways. */
  lemma WordsDisjoint(w: string)
    ensures !(TrueWord(w) && FalseWord(w))
  {
    if TrueWord(w) {
      assert w[0] == 'T' || w[0] == '1' || w[0] == 'Y';
    }
  }

  /** `parse_boolean`: blank and unknown words give None. */
  function ParseBoolean(v: string): (r: Option<bool>)
    ensures r == Some(true) <==> Strip(v) != [] && TrueWord(Upper(Strip(v)))
    ensures r == Some(false) <==> Strip(v) != [] && FalseWord(Upper(Strip(v))) && !TrueWord(Upper(Strip(v)))
  {
    WordOf(Strip(v))
  }

  /** The reading of a stripped value. */
  function WordOf(t: string): (r: Option<bool>)
    ensures r == Some(true) <==> t != [] && TrueWord(Upper(t))
    ensures r == Some(false) <==> t != [] && FalseWord(Upper(t)) && !TrueWord(Upper(t))
  {
    if t == [] then None
    else if TrueWord(Upper(t)) then Some(true)
    else if FalseWord(Upper(t)) then Some(false)
    else None
  }

  /** `parse_boolean` ignores case. */
  lemma ParseBooleanIgnoresCase(v: string)
    ensures ParseBoolean(Lower(v)) == ParseBoolean(v)
  {
    StripLower(v);
    assert ParseBoolean(Lower(v)) == WordOf(Lower(Strip(v)));
    WordOfLower(Strip(v));
  }

  lemma WordOfLower(t: string)
    ensures WordOf(Lower(t)) == WordOf(t)
  {
    assert |Lower(t)| == |t|;
    ProposalsPredictions.UpperOfLower(t);
  }

  /** The columns read with `parse_numeric`, in the order of the INSERT. */
  const NumericKeys: seq<string> := [
    "proposal_master_skey", "director_master_skey", "director_number",
    "predicted_for_shares", "predicted_against_shares", "predicted_abstain_shares", "predicted_unvoted_shares",
    "total_for_shares", "total_against_shares", "total_abstain_shares", "total_unvoted_shares",
    "ForRatioAmongVoted", "ForRatioAmongElig", "VotingRatio",
    "ForRatioAmongVoted_true", "ForRatioAmongElig_true", "VotingRatio_true",
    "ForRatioAmongVotedInclAbs", "ForRatioAmongEligInclAbs", "VotingRatioInclAbs",
    "ForRatioAmongVotedInclAbs_true", "ForRatioAmongEligInclAbs_true", "VotingRatioInclAbs_true",
    "For %", "Against %", "Abstain %", "For % True", "Against % True", "Abstain % True",
    "For (%) - From Prospectus 2026 File"]

  /** The columns copied with `row[k] or None`, in the order of the INSERT. */
  const TextKeys: seq<string> := [
    "final_key", "job_number", "issuer_name", "service", "cusip6", "mgmt_rec", "proposal", "proposal_type",
    "director_name", "Category", "Subcategory",
    "Against (%) - From Prospectus 2026 File", "Abstain/Withhold (%) - From Prospectus 2026 File"]

  const DateKeys: seq<string> := ["mt_date", "ml_date", "record_date"]

  const BoolKeys: seq<string> := ["prediction_correct", "approved"]

  /** Every column the row mapping reads. */
  const RequiredKeys: seq<string> := NumericKeys + TextKeys + DateKeys + BoolKeys

  /** The values of one row, grouped by how they are converted; each group keeps the INSERT's column order. */
  datatype SdsRow = SdsRow(
    numbers: seq<Option<Numeric>>, texts: seq<Option<string>>, dates: seq<Option<Date>>, flags: seq<Option<bool>>)

  /** `row[k]`, for a column known to be present. */
  function At(row: Row, k: string): string {
    if k in row then row[k] else ""
  }

  function OrNone(v: string): Option<string> {
    if v == "" then None else Some(v)
  }

  predicate HasColumns(row: Row) {
    forall k :: k in RequiredKeys ==> k in row
  }

  /** The tuple built for one row; `None` is the KeyError of a missing column. */
  function ProcessRow(strptime: Strptime, row: Row): (r: Option<SdsRow>)
    ensures r.None? <==> !HasColumns(row)
  {
    if !HasColumns(row) then None
    else Some(SdsRow(
      seq(|NumericKeys|, i requires 0 <= i < |NumericKeys| => ParseNumeric(At(row, NumericKeys[i]))),
      seq(|TextKeys|, i requires 0 <= i < |TextKeys| => OrNone(At(row, TextKeys[i]))),
      seq(|DateKeys|, i requires 0 <= i < |DateKeys| => ParseDate(strptime, At(row, DateKeys[i]))),
      seq(|BoolKeys|, i requires 0 <= i < |BoolKeys| => ParseBoolean(At(row, BoolKeys[i])))))
  }

  /** Each value of a converted row is its column's conversion; the director name has no `-1` rule here. */
  lemma ProcessedValues(strptime: Strptime, row: Row)
    requires HasColumns(row)
    ensures var r := ProcessRow(strptime, row).value;
      && |r.numbers| == |NumericKeys| && |r.texts| == |TextKeys| && |r.dates| == |DateKeys| && |r.flags| == |BoolKeys|
      && (forall i :: 0 <= i < |NumericKeys| ==> r.numbers[i] == ParseNumeric(row[NumericKeys[i]]))
      && (forall i :: 0 <= i < |TextKeys| ==> r.texts[i] == OrNone(row[TextKeys[i]]))
      && (forall i :: 0 <= i < |DateKeys| ==> r.dates[i] == ParseDate(strptime, row[DateKeys[i]]))
      && (forall i :: 0 <= i < |BoolKeys| ==> r.flags[i] == ParseBoolean(row[BoolKeys[i]]))
  {
    assert forall i :: 0 <= i < |NumericKeys| ==> NumericKeys[i] in RequiredKeys;
    assert forall i :: 0 <= i < |TextKeys| ==> TextKeys[i] in RequiredKeys;
    assert forall i :: 0 <= i < |DateKeys| ==> DateKeys[i] in RequiredKeys;
    assert forall i :: 0 <= i < |BoolKeys| ==> BoolKeys[i] in RequiredKeys;
  }

  /** The INSERT names 48 columns, one per value of the tuple. */
  const ColumnCount: nat := |RequiredKeys|

  /** The `%s` markers in the INSERT as the script writes it: one fewer than its columns. */
  const WrittenPlaceholders: nat := 47

  /** The number of values of a row tuple. */
  function Width(r: SdsRow): nat {
    |r.numbers| + |r.texts| + |r.dates| + |r.flags|
  }

  /** Every converted row has one value per column. */
  lemma WidthOfRow(strptime: Strptime, row: Row)
    requires HasColumns(row)
    ensures Width(ProcessRow(strptime, row).value) == ColumnCount == 48
  {
    ProcessedValues(strptime, row);
  }

  /**
   * Converting a row and executing the INSERT with a statement of
   * `placeholders` markers: the driver refuses a tuple whose length is not
   * the number of markers, which the row's `try` counts as an error.
   */
  function Statement(strptime: Strptime, placeholders: nat): Row -> Option<SdsRow> {
    row => match ProcessRow(strptime, row)
      case None => None
      case Some(r) => if Width(r) == placeholders then Some(r) else None
  }

  /** With one marker per column, every converted row binds. */
  lemma StatementBinds(strptime: Strptime, row: Row)
    ensures Statement(strptime, ColumnCount)(row) == ProcessRow(strptime, row)
  {
    if HasColumns(row) {
      WidthOfRow(strptime, row);
    }
  }

  /** The statement as written refuses every row. */
  lemma WrittenStatementNeverBinds(strptime: Strptime, row: Row)
    ensures Statement(strptime, WrittenPlaceholders)(row) == None
  {
    if HasColumns(row) {
      WidthOfRow(strptime, row);
    }
  }

  /**
   * `import_csv_data` after the file is open, with the INSERT as written:
   * the per-row loop, whose successful INSERTs the final commit keeps.
   */
  method ImportCsvDataAsWritten(strptime: Strptime, rows: seq<Row>, ok: nat -> bool)
    returns (inserted: seq<SdsRow>, successCount: nat, errorCount: nat)
    ensures var outs := Attempts(Statement(strptime, WrittenPlaceholders), ok, rows); var n := Consumed(outs, ErrorCap);
      && inserted == Good(Id, outs[..n]) && errorCount == Bad(Id, outs[..n])
    ensures successCount == |inserted|
  {
    inserted, successCount, errorCount := InsertEach(Statement(strptime, WrittenPlaceholders), ok, rows, ErrorCap);
  }

  /** As written, no row is ever inserted: the import stops after 11 failing rows, or at the end of a shorter file. */
  lemma AsWrittenInsertsNothing(strptime: Strptime, rows: seq<Row>, ok: nat -> bool)
    ensures var outs := Attempts(Statement(strptime, WrittenPlaceholders), ok, rows); var n := Consumed(outs, ErrorCap);
      && Good(Id, outs[..n]) == [] && Bad(Id, outs[..n]) == n == Batching.Min(|rows|, ErrorCap + 1)
  {
    forall j | 0 <= j < |rows|
      ensures Statement(strptime, WrittenPlaceholders)(rows[j]).None?
    {
      WrittenStatementNeverBinds(strptime, rows[j]);
    }
    NothingConverts(Statement(strptime, WrittenPlaceholders), ok, rows, ErrorCap);
  }

  /**
   * `import_csv_data` with one marker per column: the per-row loop, whose
   * successful INSERTs the final commit keeps.
   */
  method ImportCsvData(strptime: Strptime, rows: seq<Row>, ok: nat -> bool)
    returns (inserted: seq<SdsRow>, successCount: nat, errorCount: nat)
    ensures var outs := Attempts(Statement(strptime, ColumnCount), ok, rows); var n := Consumed(outs, ErrorCap);
      && inserted == Good(Id, outs[..n]) && errorCount == Bad(Id, outs[..n])
    ensures successCount == |inserted|
  {
    inserted, successCount, errorCount := InsertEach(Statement(strptime, ColumnCount), ok, rows, ErrorCap);
  }

  /** With one marker per column, a file with every column and no failing INSERT is imported whole, in file order. */
  lemma CleanFileImported(strptime: Strptime, rows: seq<Row>, ok: nat -> bool)
    requires forall j :: 0 <= j < |rows| ==> HasColumns(rows[j]) && ok(j)
    ensures var outs := Attempts(Statement(strptime, ColumnCount), ok, rows);
      && Consumed(outs, ErrorCap) == |rows| && |Good(Id, outs)| == |rows|
      && Good(Id, outs) == Processed(Statement(strptime, ColumnCount), rows).0
  {
    var st := Statement(strptime, ColumnCount);
    forall j | 0 <= j < |rows|
      ensures st(rows[j]).Some?
    {
      StatementBinds(strptime, rows[j]);
    }
    InsertEachClean(st, ok, rows, ErrorCap);
    GoodWhenNoneRaise(st, rows);
  }

  /** A header without one of the columns makes every row fail, so the import stops after 11 rows with nothing inserted. */
  lemma MissingColumnInsertsNothing(strptime: Strptime, rows: seq<Row>, ok: nat -> bool)
    requires forall j :: 0 <= j < |rows| ==> !HasColumns(rows[j])
    ensures var outs := Attempts(Statement(strptime, ColumnCount), ok, rows); var n := Consumed(outs, ErrorCap);
      && Good(Id, outs[..n]) == [] && n == Batching.Min(|rows|, ErrorCap + 1)
  {
    NothingConverts(Statement(strptime, ColumnCount), ok, rows, ErrorCap);
  }
}
