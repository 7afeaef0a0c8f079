/**
 * import_csv_update_20250817.py: the nine-column schema of the
 * 2025-08-17 files, whose `account_hash_key` is declared NOT NULL, loaded
 * with the shared batch loop of `CsvTableImport`.
 */
module ImportCsvUpdate {
  import opened CsvTableImport

  const UnvotedColumns: seq<string> := [
    "account_hash_key", "proposal_master_skey", "director_master_skey",
    "account_type", "shares_summable", "rank_of_shareholding", "score_model1", "prediction_model1", "Target_encoded"]
  const VotedColumns: seq<string> := [
    "account_hash_key", "proposal_master_skey", "director_master_skey",
    "account_type", "shares_summable", "rank_of_shareholding", "score_model2", "prediction_model2", "Target_encoded"]

  /** The SQL type `create_table_schema` gives a column; unknown names, `row_index` among them, are VARCHAR(255). */
  function SqlTypeOf(c: Column): SqlType {
    match c
    case RowIndex => VarChar(255, false)
    case UnnamedCol => VarChar(255, false)
    case AccountHashKey => VarChar(255, true)
    case ProposalMasterSkey => Int
    case DirectorMasterSkey => Int
    case AccountType => VarChar(100, false)
    case SharesSummable => Decimal(20, 2)
    case RankOfShareholding => Int
    case ScoreModel1 => Decimal(10, 6)
    case ScoreModel2 => Decimal(10, 6)
    case PredictionModel1 => TinyInt
    case PredictionModel2 => TinyInt
    case TargetEncoded => Int
    case OtherColumn => VarChar(255, false)
  }

  /** How `import_csv_to_table` converts a column's non-empty text, chosen by its name. */
  function KindOf(c: Column): Kind {
    match c
    case ProposalMasterSkey => IntOrNull
    case DirectorMasterSkey => IntOrNull
    case RankOfShareholding => IntOrNull
    case SharesSummable => FloatOrNull
    case ScoreModel1 => FloatOrNull
    case ScoreModel2 => FloatOrNull
    case PredictionModel1 => IntOrZero
    case PredictionModel2 => IntOrZero
    case TargetEncoded => IntOrNull
    case _ => TextKind
  }

  /** The conversions of this script's columns. */
  function Kinds(columns: seq<string>): seq<Kind> {
    KindsBy(KindOf, columns)
  }

  /**
   * The conversion agrees with the declared type: `int(float(v))` with
   * NULL fallback feeds INT columns, with 0 fallback TINYINT columns,
   * `float(v)` DECIMAL columns and text VARCHAR columns.
   */
  lemma KindMatchesType(c: Column)
    ensures SqlTypeOf(c).VarChar? && SqlTypeOf(c).notNull <==> c == AccountHashKey
    ensures KindOf(c) == IntOrNull <==> SqlTypeOf(c) == Int
    ensures KindOf(c) == IntOrZero <==> SqlTypeOf(c) == TinyInt
    ensures KindOf(c) == FloatOrNull <==> SqlTypeOf(c).Decimal?
    ensures KindOf(c) == TextKind <==> SqlTypeOf(c).VarChar?
  {
  }

  /** How each of the nine fields is read, the same for both files. */
  lemma UnvotedKinds()
    ensures Kinds(UnvotedColumns) == NineKinds
  {
  }

  lemma VotedKinds()
    ensures Kinds(VotedColumns) == NineKinds
  {
  }

  const NineKinds := [TextKind, IntOrNull, IntOrNull, TextKind, FloatOrNull, IntOrNull, FloatOrNull, IntOrZero, IntOrNull]

  /** The server refuses a NULL in the first (hash) column. */
  ghost predicate HashNotNull(fits: Tuple -> bool) {
    forall t: Tuple :: fits(t) ==> |t| == 0 || t[0] != Null
  }

  /**
   * A data row whose hash field is blank converts to a tuple with a NULL
   * hash; the server rejects it, so by the final `executemany` the import
   * returns 0 (see `ImportCsvToTable`), whatever the other rows hold.
   */
  lemma BlankHashStopsImport(fits: Tuple -> bool, rows: seq<seq<string>>, j: nat)
    requires HashNotNull(fits)
    requires j < |rows| && Field(rows[j], 0) == "" && ConvertRow(Kinds(UnvotedColumns), rows[j]).Some?
    ensures var c := Converted(Kinds(UnvotedColumns), rows); GoodPrefix(fits, c) < |c|
  {
    var kinds := Kinds(UnvotedColumns);
    ConvertRowMeaning(kinds, rows[j]);
    var t := ConvertRow(kinds, rows[j]).value;
    assert t[0] == Null;
    ConvertedHas(kinds, rows, j);
    RejectedCutsPrefix(fits, Converted(kinds, rows), t);
  }
}
