/**
 * import_proposals_predictions_bulk.py: the narrower variant of the
 * comprehensive import.  It reads fewer columns, converts them
 * differently, and keeps the same batch loop, error cap, `parse_date`
 * and `main` (`ProposalsComprehensive`).
 */
module ProposalsBulk {
  import opened Wrappers
  import opened PyText
  import opened PyNum
  import opened Dates
  import opened RowStream
  import opened CappedLoop
  import Outreach
  import Batching
  import ProposalsPredictions
  import ProposalsComprehensive

  /**
   * A `csv.DictReader` row: a column of the header maps to its field, or
   * to None when the line is too short to fill it.
   */
  type Row = map<string, Option<string>>

  /**
   * `row.get(k, '')`: the empty text for a column the header lacks, and
   * None for a field a short line leaves unfilled.
   */
  function GetOrEmpty(row: Row, k: string): Option<string> {
    if k in row then row[k] else Some("")
  }

  /** `row.get(k)`: None both for a missing column and for an unfilled field. */
  function Get(row: Row, k: string): Option<string> {
    if k in row then row[k] else None
  }

  /**
   * The columns whose `row.get(k, '')` the conversion strips, in the
   * order it reads them: an unfilled one raises AttributeError.
   */
  const StrippedKeys: seq<string> := [
    "proposal_master_skey", "director_master_skey", "issuer_name", "category",
    "proposal", "prediction_correct", "approved"]

  /** No stripped column of the row is an unfilled field. */
  predicate Filled(row: Row) {
    forall i :: 0 <= i < |StrippedKeys| ==> GetOrEmpty(row, StrippedKeys[i]).Some?
  }

  /** The text of a stripped column of a filled row. */
  function Text(row: Row, k: string): string {
    match GetOrEmpty(row, k)
    case Some(t) => t
    case None => ""
  }

  /**
   * A master key: blank gives None; otherwise `float(v)` must parse (its
   * ValueError fails the row), `-1.0` in any spelling gives None, and
   * `int()` of the float must exist (NaN and infinities fail the row).
   * The outer `None` is the failure.
   */
  function MasterKey(v: string): Option<Option<int>> {
    if Strip(v) == [] then Some(None)
    else match ParseFloat(v)
      case None => None
      case Some(n) =>
        if NumEquals(n, -1) then Some(None)
        else match IntOf(n)
          case IntOk(k) => Some(Some(k))
          case _ => None
  }

  /** When a key fails its row, when it is None, and which integer it is otherwise. */
  lemma MasterKeyMeaning(v: string)
    ensures Strip(v) == [] ==> MasterKey(v) == Some(None)
    ensures Strip(v) != [] ==>
      var r := MasterKey(v);
      && (r.None? <==> ParseFloat(v).None? || !ParseFloat(v).value.Finite?)
      && (r == Some(None) <==> ParseFloat(v).Some? && NumEquals(ParseFloat(v).value, -1))
      && (r.Some? && r.value.Some? ==> IntOf(ParseFloat(v).value) == IntOk(r.value.value))
  {
  }

  /** A rendered integer reads back as itself, and `-1` as None. */
  lemma MasterKeyOfInteger(n: int)
    ensures MasterKey(IntToString(n)) == Some(if n == -1 then None else Some(n))
  {
    MasterKeyMeaning(IntToString(n));
    Outreach.IntegerReads(n);
    ParseFloatOfIntString(n);
    assert NumEquals(Finite(n, 0), -1) <==> n == -1;
  }

  /**
   * Unlike `safe_int`, which turns text it cannot read into None, an
   * unreadable key fails the whole row here.
   */
  lemma UnreadableKeyFailsRow(s: string)
    requires Strip(s) != [] && ParseFloat(s).None?
    ensures MasterKey(s) == None
    ensures Outreach.SafeInt(Some(s)) == Outreach.Converted(None)
  {
    MasterKeyMeaning(s);
  }

  /** `row.get(k, '')[:width] if row.get(k, '').strip() else None`. */
  function Clip(v: string, width: nat): Option<string> {
    if Strip(v) == [] then None else Some(v[..Batching.Min(width, |v|)])
  }

  /** A clipped value is the leading `width` characters of a value that is not blank. */
  lemma ClipMeaning(v: string, width: nat)
    ensures Strip(v) == [] <==> Clip(v, width) == None
    ensures Clip(v, width).Some? ==> Clip(v, width).value <= v && |Clip(v, width).value| == Batching.Min(width, |v|)
  {
  }

  lemma ClipShort(v: string, width: nat)
    ensures Clip(v, width).Some? ==> |Clip(v, width).value| <= width
  {
  }

  lemma StripEmpty()
    ensures Strip([]) == []
  {
    assert AllSpace([]);
  }

  /** The words a flag column reads as 1, after stripping and lower-casing. */
  predicate YesWord(w: string) {
    w == "true" || w == "1" || w == "yes"
  }

  /** The flag columns: 1 for a yes word, and 0 for anything else, missing values included. */
  function Flag(v: string): (r: int)
    ensures r == 0 || r == 1
  {
    if YesWord(Lower(Strip(v))) then 1 else 0
  }

  /** The flags ignore case: `TRUE`, `True` and `true` all give 1. */
  lemma FlagIgnoresCase(s: string)
    ensures Flag(Lower(s)) == Flag(s)
    ensures Flag(Upper(s)) == Flag(s)
  {
    FlagOfLower(s);
    FlagOfLower(Upper(s));
    LowerOfUpper(s);
  }

  lemma FlagOfLower(s: string)
    ensures Flag(Lower(s)) == Flag(s)
  {
    StripLower(s);
    LowerOfLower(Strip(s));
  }

  lemma LowerOfLower(s: string)
    ensures Lower(Lower(s)) == Lower(s)
  {
  }

  lemma LowerOfUpper(s: string)
    ensures Lower(Upper(s)) == Lower(s)
  {
  }

  /** The row `import_csv_to_database` builds, without its DECIMAL columns. */
  datatype BulkRow = BulkRow(
    proposalKey: Option<int>, directorKey: Option<int>,
    issuerName: Option<string>, category: Option<string>, proposal: Option<string>,
    predictionCorrect: int, approved: int, meetingDate: Option<Date>)

  /**
   * One row; `None` when an unfilled stripped field or one of the master
   * keys fails it.  Category comes from the lower-case `category` header.
   */
  function ProcessRow(strptime: Strptime, row: Row): Option<BulkRow> {
    WithKeys(MasterKey, strptime, row)
  }

  /** The row, with the master-key conversion `key` as a parameter. */
  function WithKeys(key: string -> Option<Option<int>>, strptime: Strptime, row: Row): Option<BulkRow> {
    if !Filled(row) then None
    else
      var p := key(Text(row, "proposal_master_skey"));
      var d := key(Text(row, "director_master_skey"));
      if p.Some? && d.Some? then Some(BuildRow(strptime, row, p.value, d.value)) else None
  }

  /** The tuple of a filled row whose keys converted to `p` and `d`. */
  function BuildRow(strptime: Strptime, row: Row, p: Option<int>, d: Option<int>): BulkRow {
    BulkRow(p, d,
      Clip(Text(row, "issuer_name"), 500), Clip(Text(row, "category"), 500),
      (var t := Text(row, "proposal"); if Strip(t) == [] then None else Some(t)),
      Flag(Text(row, "prediction_correct")), Flag(Text(row, "approved")),
      ProposalsComprehensive.ParseDate(strptime, Get(row, "meeting_date")))
  }

  /**
   * A row fails exactly when a stripped field is unfilled or one of its
   * keys fails; a missing key column gives no key.
   */
  lemma ProcessRowFails(strptime: Strptime, row: Row)
    ensures ProcessRow(strptime, row).None? <==>
      || !Filled(row)
      || MasterKey(Text(row, "proposal_master_skey")).None? || MasterKey(Text(row, "director_master_skey")).None?
    ensures ProcessRow(strptime, row).Some? && "proposal_master_skey" !in row ==> ProcessRow(strptime, row).value.proposalKey == None
  {
    WithKeysFails(MasterKey, strptime, row);
    if "proposal_master_skey" !in row {
      StripEmpty();
      MasterKeyMeaning([]);
    }
  }

  lemma WithKeysFails(key: string -> Option<Option<int>>, strptime: Strptime, row: Row)
    ensures WithKeys(key, strptime, row).None? <==>
      !Filled(row) || key(Text(row, "proposal_master_skey")).None? || key(Text(row, "director_master_skey")).None?
    ensures WithKeys(key, strptime, row).Some? ==>
      WithKeys(key, strptime, row).value.proposalKey == key(Text(row, "proposal_master_skey")).value
  {
  }

  /**
   * A line too short to fill a stripped column fails its row, where the
   * comprehensive script's `row.get(k)` would read None; an unfilled
   * meeting date is no date and does not fail the row.
   */
  lemma ShortLineFails(strptime: Strptime, row: Row, k: string)
    requires k in StrippedKeys && k in row && row[k] == None
    ensures ProcessRow(strptime, row) == None
    ensures Outreach.Blank(Get(row, k))
  {
    var i :| 0 <= i < |StrippedKeys| && StrippedKeys[i] == k;
    assert GetOrEmpty(row, StrippedKeys[i]).None?;
  }

  /** Without the meeting date column, or with it unfilled, a converted row has no meeting date. */
  lemma UnfilledDateIsNone(strptime: Strptime, row: Row, p: Option<int>, d: Option<int>)
    requires "meeting_date" !in row || row["meeting_date"] == None
    ensures BuildRow(strptime, row, p, d).meetingDate == None
  {
    ProposalsComprehensive.ParseDateMeaning(strptime, Get(row, "meeting_date"));
  }

  /**
   * A converted row: text columns are at most 500 characters, flags are 0
   * or 1, and without a `category` column there is no category.
   */
  lemma BuiltColumns(strptime: Strptime, row: Row, p: Option<int>, d: Option<int>)
    ensures var b := BuildRow(strptime, row, p, d);
      && (b.issuerName.Some? ==> |b.issuerName.value| <= 500)
      && (b.category.Some? ==> |b.category.value| <= 500)
      && (b.predictionCorrect == 0 || b.predictionCorrect == 1) && (b.approved == 0 || b.approved == 1)
      && ("category" !in row ==> b.category == None)
  {
    BuiltWidths(strptime, row, p, d);
    BuiltFlags(strptime, row, p, d);
    NoCategoryColumn(strptime, row, p, d);
  }

  lemma BuiltWidths(strptime: Strptime, row: Row, p: Option<int>, d: Option<int>)
    ensures var b := BuildRow(strptime, row, p, d);
      && (b.issuerName.Some? ==> |b.issuerName.value| <= 500)
      && (b.category.Some? ==> |b.category.value| <= 500)
  {
    BuiltFields(strptime, row, p, d);
    ClipShort(Text(row, "issuer_name"), 500);
    ClipShort(Text(row, "category"), 500);
  }

  lemma BuiltFlags(strptime: Strptime, row: Row, p: Option<int>, d: Option<int>)
    ensures var b := BuildRow(strptime, row, p, d);
      (b.predictionCorrect == 0 || b.predictionCorrect == 1) && (b.approved == 0 || b.approved == 1)
  {
  }

  lemma NoCategoryColumn(strptime: Strptime, row: Row, p: Option<int>, d: Option<int>)
    ensures "category" !in row ==> BuildRow(strptime, row, p, d).category == None
  {
    if "category" !in row {
      assert Text(row, "category") == "";
      EmptyClip("");
      assert BuildRow(strptime, row, p, d).category == Clip("", 500);
    }
  }

  lemma EmptyClip(v: string)
    requires v == ""
    ensures Clip(v, 500) == None
  {
    StripEmpty();
  }

  lemma BuiltFields(strptime: Strptime, row: Row, p: Option<int>, d: Option<int>)
    ensures var b := BuildRow(strptime, row, p, d);
      && b.issuerName == Clip(Text(row, "issuer_name"), 500)
      && b.category == Clip(Text(row, "category"), 500)
      && b.predictionCorrect == Flag(Text(row, "prediction_correct"))
      && b.approved == Flag(Text(row, "approved"))
  {
  }

  function Convert(strptime: Strptime): Row -> Option<BulkRow> {
    row => ProcessRow(strptime, row)
  }

  /** `import_csv_to_database`: the comprehensive script's steps with this script's conversion. */
  method ImportCsvToDatabase(strptime: Strptime, file: Option<ProposalsComprehensive.CsvFile<Row>>, connected: bool, ok: nat -> bool)
    returns (result: bool, table: seq<BulkRow>, errorCount: nat)
    ensures file.None? || !connected || file.value.header.None? ==> !result && table == []
    ensures file.Some? && connected && file.value.header.Some? ==>
      var s := Run(Convert(strptime), file.value.rows, ok, ProposalsComprehensive.ErrorCap, ProposalsComprehensive.BatchSize, Empty());
      (result, table) == ProposalsComprehensive.Ended(s, file.value.broken, ok)
  {
    result, table, errorCount := ProposalsComprehensive.ImportFile(Convert(strptime), file, connected, ok);
  }
}
