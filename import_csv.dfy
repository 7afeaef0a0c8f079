/**
 * import_csv.py: recreates `account_unvoted` and `account_voted` with
 * the eleven columns of the 2025-08-16 files (a leading `row_index` and
 * an unnamed column before the nine data columns) and loads each file
 * with the shared batch loop of `CsvTableImport`.
 */
module ImportCsv {
  import opened CsvTableImport

  const UnvotedColumns: seq<string> := [
    "row_index", "unnamed_col", "account_hash_key", "proposal_master_skey", "director_master_skey",
    "account_type", "shares_summable", "rank_of_shareholding", "score_model1", "prediction_model1", "Target_encoded"]
  const VotedColumns: seq<string> := [
    "row_index", "unnamed_col", "account_hash_key", "proposal_master_skey", "director_master_skey",
    "account_type", "shares_summable", "rank_of_shareholding", "score_model2", "prediction_model2", "Target_encoded"]

  /** The SQL type `create_table_schema` gives a column; unknown names are VARCHAR(255). */
  function SqlTypeOf(c: Column): SqlType {
    match c
    case RowIndex => Int
    case UnnamedCol => VarChar(255, false)
    case AccountHashKey => VarChar(255, false)
    case ProposalMasterSkey => Int
    case DirectorMasterSkey => Int
    case AccountType => VarChar(100, false)
    case SharesSummable => Decimal(20, 2)
    case RankOfShareholding => Int
    case ScoreModel1 => Decimal(10, 6)
    case ScoreModel2 => Decimal(10, 6)
    case PredictionModel1 => TinyInt
    case PredictionModel2 => TinyInt
    case TargetEncoded => Int
    case OtherColumn => VarChar(255, false)
  }

  /** How `import_csv_to_table` converts a column's non-empty text, chosen by its name. */
  function KindOf(c: Column): Kind {
    match c
    case RowIndex => IntOrNull
    case ProposalMasterSkey => IntOrNull
    case DirectorMasterSkey => IntOrNull
    case RankOfShareholding => IntOrNull
    case SharesSummable => FloatOrNull
    case ScoreModel1 => FloatOrNull
    case ScoreModel2 => FloatOrNull
    case PredictionModel1 => IntOrZero
    case PredictionModel2 => IntOrZero
    case TargetEncoded => IntOrNull
    case _ => TextKind
  }

  /** The conversions of this script's columns. */
  function Kinds(columns: seq<string>): seq<Kind> {
    KindsBy(KindOf, columns)
  }

  /**
   * The conversion agrees with the declared type: `int(float(v))` with
   * NULL fallback feeds INT columns, with 0 fallback TINYINT columns,
   * `float(v)` DECIMAL columns and text VARCHAR columns.
   */
  lemma KindMatchesType(c: Column)
    ensures KindOf(c) == IntOrNull <==> SqlTypeOf(c) == Int
    ensures KindOf(c) == IntOrZero <==> SqlTypeOf(c) == TinyInt
    ensures KindOf(c) == FloatOrNull <==> SqlTypeOf(c).Decimal?
    ensures KindOf(c) == TextKind <==> SqlTypeOf(c).VarChar?
  {
  }

  /**
   * How each of the eleven fields is read: the leading index, both keys,
   * the rank and `Target_encoded` with `int(float(v))` failing to NULL,
   * shares and score with `float(v)`, the prediction with `int(float(v))`
   * failing to 0, and the rest as text.
   */
  lemma UnvotedKinds()
    ensures Kinds(UnvotedColumns) == [IntOrNull, TextKind, TextKind, IntOrNull, IntOrNull, TextKind,
                                      FloatOrNull, IntOrNull, FloatOrNull, IntOrZero, IntOrNull]
  {
  }

  /** The 2025-08-16 files differ only in the model's score and prediction columns. */
  lemma SchemasDiffer()
    ensures |UnvotedColumns| == |VotedColumns| == 11
    ensures forall k :: 0 <= k < 11 && k != 8 && k != 9 ==> UnvotedColumns[k] == VotedColumns[k]
    ensures Kinds(UnvotedColumns) == Kinds(VotedColumns)
  {
  }
}
