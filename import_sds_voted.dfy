/**
 * import_sds_account_voted.py: loads the SDS voted-accounts file into
 * `proxy_sds.account_voted` with its nine fixed columns and the shared
 * batch loop of `CsvTableImport`.
 */
module ImportSdsVoted {
  import opened CsvTableImport
  import PyNum
  import PyText

  const Columns: seq<string> := [
    "account_hash_key", "proposal_master_skey", "director_master_skey",
    "account_type", "shares_summable", "rank_of_shareholding",
    "score_model2", "prediction_model2", "Target_encoded"]

  /**
   * How `import_csv_to_account_voted` converts a column's non-empty text,
   * chosen by its name; the model-1 names are not in its lists.
   */
  function KindOf(c: Column): Kind {
    match c
    case ProposalMasterSkey => IntOrNull
    case DirectorMasterSkey => IntOrNull
    case RankOfShareholding => IntOrNull
    case SharesSummable => FloatOrNull
    case ScoreModel2 => FloatOrNull
    case PredictionModel2 => IntOrZero
    case TargetEncoded => IntOrNull
    case _ => TextKind
  }

  /** The conversions of this script's columns. */
  function Kinds(columns: seq<string>): seq<Kind> {
    KindsBy(KindOf, columns)
  }

  /** How each of the nine fields is read: hash and account type as text, keys and rank as integers. */
  lemma VotedKinds()
    ensures Kinds(Columns) ==
      [TextKind, IntOrNull, IntOrNull, TextKind, FloatOrNull, IntOrNull, FloatOrNull, IntOrZero, IntOrNull]
  {
  }

  /**
   * Every converted row has exactly the nine columns, whatever the number
   * of fields the line had; a prediction that is not a number is 0 and a
   * `Target_encoded` that is not a number is NULL.
   */
  lemma NormalisedRow(row: seq<string>)
    requires ConvertRow(Kinds(Columns), row).Some?
    ensures |ConvertRow(Kinds(Columns), row).value| == 9
    ensures Field(row, 7) != "" && PyNum.ParseFloat(Field(row, 7)).None? ==>
      ConvertRow(Kinds(Columns), row).value[7] == IntCell(0)
    ensures Field(row, 8) != "" && PyNum.ParseFloat(Field(row, 8)).None? ==>
      ConvertRow(Kinds(Columns), row).value[8] == Null
  {
    var kinds := Kinds(Columns);
    VotedKinds();
    ConvertRowMeaning(kinds, row);
    var t := ConvertRow(kinds, row).value;
    FallbackCell(kinds, row, t, 7);
    FallbackCell(kinds, row, t, 8);
  }

  /** The cell of an unparsable field in an integer column. */
  lemma FallbackCell(kinds: seq<CsvTableImport.Kind>, row: seq<string>, t: Tuple, k: nat)
    requires k < |kinds| == |t| && (kinds[k] == IntOrNull || kinds[k] == IntOrZero)
    requires ConvertCell(kinds[k], Field(row, k)).Some?
    requires t[k] == ConvertCell(kinds[k], Field(row, k)).value
    ensures Field(row, k) != "" && PyNum.ParseFloat(Field(row, k)).None? ==>
      t[k] == (if kinds[k] == IntOrZero then IntCell(0) else Null)
  {
    if Field(row, k) != "" && PyNum.ParseFloat(Field(row, k)).None? {
      UnparsableCells(Field(row, k));
    }
  }

  /** How `main` ends before the import, or that it goes on to it. */
  datatype Gate = Proceed | Stop(code: int)

  /**
   * The checks `main` makes before importing: a connection, the table,
   * a count query that does not raise, and, when the table already has
   * rows, an answer of `y` in either case to the prompt.  Only a refused
   * prompt ends with status 0.
   */
  function MainGate(connected: bool, tableExists: bool, checkRaises: bool, currentCount: nat, response: string): (g: Gate)
    ensures g == Proceed <==>
      connected && tableExists && !checkRaises && (currentCount == 0 || response == "y" || response == "Y")
    ensures g == Stop(0) <==>
      connected && tableExists && !checkRaises && currentCount > 0 && response != "y" && response != "Y"
    ensures g.Stop? ==> g.code == 0 || g.code == 1
  {
    assert PyText.Lower(response) == "y" <==> response == "y" || response == "Y" by {
      if |response| == 1 {
        assert PyText.Lower(response) == [PyText.LowerChar(response[0])];
      }
    }
    if !connected then Stop(1)
    else if !tableExists then Stop(1)
    else if checkRaises then Stop(1)
    else if currentCount > 0 && PyText.Lower(response) != "y" then Stop(0)
    else Proceed
  }
}
