/**
 * import_proxy_sds_calibrated_unified.py: the resumable parquet import of
 * calibrated SDS data.  Same row-group bookkeeping as the unified importer,
 * but both tables take `score_model2`/`prediction_model2`, legacy
 * `*_model1` columns are copied into them when absent, shares are
 * integers and predictions floats.  Database outcomes are parameters as in
 * `SdsUnifiedParquet`.
 */
module SdsCalibrated {
  import opened Wrappers
  import opened Frames
  import ChunkedImport
  import SdsUnifiedParquet

  datatype TableConfig = TableConfig(columns: seq<string>, scoreField: string, predictionField: string)

  /** The nine destination columns, in insertion order. */
  const RequiredColumns: seq<string> := ["account_hash_key", "proposal_master_skey", "director_master_skey",
                                        "account_type", "shares_summable", "rank_of_shareholding",
                                        "score_model2", "prediction_model2", "Target_encoded"]

  /** Legacy column name and the column it stands for, in the order they are applied. */
  const LegacyAliases: seq<(string, string)> := [("score_model1", "score_model2"), ("prediction_model1", "prediction_model2")]

  const BatchSize: nat := 5000

  /** `get_table_config`: both tables use the model-2 fields; anything else is a ValueError. */
  function GetTableConfig(table: string): (r: Option<TableConfig>)
    ensures r.Some? <==> table == "account_voted" || table == "account_unvoted"
    ensures r.Some? ==> r.value.scoreField == "score_model2" && r.value.predictionField == "prediction_model2"
    ensures r.Some? ==> r.value.columns == RequiredColumns
  {
    if table == "account_voted" || table == "account_unvoted" then
      Some(TableConfig(RequiredColumns, "score_model2", "prediction_model2"))
    else None
  }

  /** The alias copies applied in order. */
  function ApplyAliases(f: Frame, pairs: seq<(string, string)>): (g: Frame)
    requires WellFormed(f)
    ensures WellFormed(g) && |g.rows| == |f.rows|
    decreases |pairs|
  {
    if pairs == [] then f else ApplyAliases(CopyColumnIfAbsent(f, pairs[0].0, pairs[0].1), pairs[1..])
  }

  function AliasLegacyColumns(f: Frame): (g: Frame)
    requires WellFormed(f)
    ensures WellFormed(g) && |g.rows| == |f.rows|
  {
    ApplyAliases(f, LegacyAliases)
  }

  lemma AliasLegacyUnfold(f: Frame)
    requires WellFormed(f)
    ensures AliasLegacyColumns(f) == CopyColumnIfAbsent(CopyColumnIfAbsent(f, "score_model1", "score_model2"),
                                                       "prediction_model1", "prediction_model2")
  {
    assert LegacyAliases[1..] == [("prediction_model1", "prediction_model2")];
    assert LegacyAliases[1..][1..] == [];
  }

  /**
   * The copies never overwrite: an existing `score_model2` or
   * `prediction_model2` keeps its values, and an absent one reads the
   * legacy column's values when that is present.
   */
  lemma AliasCopiesOnlyWhenAbsent(f: Frame, r: nat)
    requires WellFormed(f) && r < |f.rows|
    ensures var g := AliasLegacyColumns(f);
      Lookup(g.columns, g.rows[r], "score_model2") ==
        (if "score_model2" in f.columns || "score_model1" !in f.columns then Lookup(f.columns, f.rows[r], "score_model2")
         else Lookup(f.columns, f.rows[r], "score_model1"))
    ensures var g := AliasLegacyColumns(f);
      Lookup(g.columns, g.rows[r], "prediction_model2") ==
        (if "prediction_model2" in f.columns || "prediction_model1" !in f.columns then Lookup(f.columns, f.rows[r], "prediction_model2")
         else Lookup(f.columns, f.rows[r], "prediction_model1"))
  {
    var f1 := CopyColumnIfAbsent(f, "score_model1", "score_model2");
    var f2 := CopyColumnIfAbsent(f1, "prediction_model1", "prediction_model2");
    AliasLegacyUnfold(f);
    if "score_model1" in f.columns {
      CopyColumnReadsOld(f, "score_model1", "score_model2", r);
    }
    CopyColumnKeepsOthers(f1, "prediction_model1", "prediction_model2", r, "score_model2");
    CopyColumnKeepsOthers(f, "score_model1", "score_model2", r, "prediction_model1");
    CopyColumnKeepsOthers(f, "score_model1", "score_model2", r, "prediction_model2");
    if "prediction_model1" in f1.columns {
      CopyColumnReadsOld(f1, "prediction_model1", "prediction_model2", r);
    }
    if f1 != f {
      assert f1.columns == f.columns + ["score_model2"];
    }
  }

  /** Shares is an integer column here and the prediction a float. */
  const RowKinds: seq<Kind> := [AsIs, AsInt, AsInt, AsIs, AsInt, AsInt, AsFloat, AsFloat, AsInt]

  function GroupRows(f: Frame, table: string): seq<seq<Value>>
    requires WellFormed(f)
  {
    if GetTableConfig(table).None? then [] else ChunkRows(AliasLegacyColumns(f), RequiredColumns, RowKinds)
  }

  /** `process_dataframe_chunk`: alias copies, then nine converted values per row; any error gives `[]`. */
  method ProcessDataframeChunk(f: Frame, table: string) returns (processed: seq<seq<Value>>)
    requires WellFormed(f)
    ensures GetTableConfig(table).None? ==> processed == []
    ensures GetTableConfig(table).Some? && (forall r :: 0 <= r < |f.rows| ==>
      ConvertRow(AliasLegacyColumns(f).columns, AliasLegacyColumns(f).rows[r], RequiredColumns, RowKinds).Some?) ==>
        |processed| == |f.rows| && forall r :: 0 <= r < |f.rows| ==> |processed[r]| == 9
    ensures processed == GroupRows(f, table)
  {
    if GetTableConfig(table).None? {
      return [];
    }
    var g := CopyColumnIfAbsent(f, "score_model1", "score_model2");
    g := CopyColumnIfAbsent(g, "prediction_model1", "prediction_model2");
    AliasLegacyUnfold(f);
    processed := ProcessChunk(g, RequiredColumns, RowKinds);
  }

  lemma {:induction false} ApplyAliasesSnoc(f: Frame, pairs: seq<(string, string)>, p: (string, string))
    requires WellFormed(f)
    ensures ApplyAliases(f, pairs + [p]) == CopyColumnIfAbsent(ApplyAliases(f, pairs), p.0, p.1)
    decreases |pairs|
  {
    if pairs == [] {
      assert [] + [p] == [p];
      assert [p][1..] == [];
    } else {
      assert (pairs + [p])[1..] == pairs[1..] + [p];
      ApplyAliasesSnoc(CopyColumnIfAbsent(f, pairs[0].0, pairs[0].1), pairs[1..], p);
    }
  }

  predicate AllWellFormed(frames: seq<Frame>) {
    forall g :: 0 <= g < |frames| ==> WellFormed(frames[g])
  }

  function Sizes(frames: seq<Frame>): (s: seq<nat>)
    ensures |s| == |frames| && forall g :: 0 <= g < |frames| ==> s[g] == |frames[g].rows|
  {
    seq(|frames|, g requires 0 <= g < |frames| => |frames[g].rows|)
  }

  function BatchImportTotal(table: string, file: Option<seq<Frame>>, skip: nat, sliceOk: (nat, nat) -> bool): nat
    requires file.Some? ==> AllWellFormed(file.value)
  {
    if GetTableConfig(table).None? || file.None? then 0
    else
      var frames := file.value;
      |ChunkedImport.BatchCommitted(seq(|frames|, g requires 0 <= g < |frames| => GroupRows(frames[g], table)),
                                    BatchSize, sliceOk, skip, |frames|)|
  }

  /**
   * `import_parquet_with_batch_insert`: groups `skip ..`, slices of 5000;
   * a chunk whose statement raises is abandoned and the loop continues.
   */
  method ImportWithBatchInsert(table: string, file: Option<seq<Frame>>, skip: nat, sliceOk: (nat, nat) -> bool)
    returns (imported: nat)
    requires file.Some? ==> AllWellFormed(file.value)
    ensures GetTableConfig(table).None? || file.None? ==> imported == 0
    ensures file.Some? && skip >= |file.value| ==> imported == 0
    ensures imported == BatchImportTotal(table, file, skip, sliceOk)
  {
    if GetTableConfig(table).None? || file.None? {
      return 0;
    }
    var frames := file.value;
    var chunks: seq<seq<seq<Value>>> := [];
    for g := 0 to |frames|
      invariant |chunks| == g && forall q :: 0 <= q < g ==> chunks[q] == GroupRows(frames[q], table)
    {
      var rows := ProcessDataframeChunk(frames[g], table);
      chunks := chunks + [rows];
    }
    assert chunks == seq(|frames|, g requires 0 <= g < |frames| => GroupRows(frames[g], table));
    var committed;
    imported, committed := ChunkedImport.BatchInsertRowGroups(chunks, skip, BatchSize, sliceOk);
  }

  predicate UsesBatchPath(table: string, setupOk: bool, localInfile: Option<string>) {
    GetTableConfig(table).None? || !setupOk || localInfile != Some("ON")
  }

  /**
   * A group's LOAD DATA can commit only when, after the alias copies, all
   * nine required columns are there to be projected; a missing one raises
   * inside that group's iteration.
   */
  function EffectiveLoads(frames: seq<Frame>, loaded: seq<bool>): (eff: seq<bool>)
    requires AllWellFormed(frames) && |loaded| == |frames|
    ensures |eff| == |frames|
    ensures forall g :: 0 <= g < |frames| ==>
      (eff[g] <==> loaded[g] && Select(AliasLegacyColumns(frames[g]), RequiredColumns).Some?)
  {
    seq(|frames|, g requires 0 <= g < |frames| => loaded[g] && Select(AliasLegacyColumns(frames[g]), RequiredColumns).Some?)
  }

  /**
   * `import_parquet_with_load_data`: falls back to the batch path with the
   * same `skip`; otherwise each group is alias-copied, projected on the nine
   * required columns in their fixed order and loaded.
   */
  method ImportWithLoadData(table: string, setupOk: bool, localInfile: Option<string>, file: Option<seq<Frame>>,
                            skip: nat, loaded: seq<bool>, sliceOk: (nat, nat) -> bool)
    returns (imported: nat, fellBack: bool)
    requires file.Some? ==> AllWellFormed(file.value) && |loaded| == |file.value|
    ensures fellBack <==> UsesBatchPath(table, setupOk, localInfile)
    ensures fellBack ==> imported == BatchImportTotal(table, file, skip, sliceOk)
    ensures !fellBack && file.None? ==> imported == 0
    ensures !fellBack && file.Some? ==>
      imported == ChunkedImport.CommittedRange(Sizes(file.value), EffectiveLoads(file.value, loaded), skip, |file.value|)
  {
    if UsesBatchPath(table, setupOk, localInfile) {
      imported := ImportWithBatchInsert(table, file, skip, sliceOk);
      return imported, true;
    }
    fellBack := false;
    if file.None? {
      return 0, false;
    }
    var frames := file.value;
    var eff: seq<bool> := [];
    for g := 0 to |frames|
      invariant |eff| == g
      invariant forall q :: 0 <= q < g ==> eff[q] == (loaded[q] && Select(AliasLegacyColumns(frames[q]), RequiredColumns).Some?)
    {
      var projected := Select(AliasLegacyColumns(frames[g]), RequiredColumns);
      eff := eff + [loaded[g] && projected.Some?];
    }
    assert eff == EffectiveLoads(frames, loaded);
    var visited;
    imported, visited := ChunkedImport.LoadRowGroups(Sizes(frames), skip, eff);
  }

  function ResumeSkip(count: nat, file: Option<seq<Frame>>): nat {
    if count == 0 || file.None? then 0 else ChunkedImport.ResumePoint(count, Sizes(file.value))
  }

  /** `calculate_resume_point`: 0 for an empty destination or unreadable file, else the covered prefix. */
  method CalculateResumePoint(count: nat, file: Option<seq<Frame>>) returns (skip: nat)
    ensures count == 0 || file.None? ==> skip == 0
    ensures count > 0 && file.Some? ==> skip == ChunkedImport.ResumePoint(count, Sizes(file.value))
    ensures skip == ResumeSkip(count, file)
  {
    if count == 0 || file.None? {
      return 0;
    }
    var cumulative;
    skip, cumulative := ChunkedImport.ResumeScan(count, Sizes(file.value));
  }

  /** `process_single_file`: the same decisions as the unified importer. */
  method ProcessSingleFile(exists_: bool, current: nat, table: string, setupOk: bool, localInfile: Option<string>,
                           file: Option<seq<Frame>>, loaded: seq<bool>, sliceOk: (nat, nat) -> bool, finalCount: nat)
    returns (success: bool, ranImport: bool, imported: nat)
    requires file.Some? ==> AllWellFormed(file.value) && |loaded| == |file.value|
    ensures !exists_ || file.None? ==> !success && !ranImport
    ensures exists_ && file.Some? && current >= ChunkedImport.Sum(Sizes(file.value)) ==> success && !ranImport
    ensures ranImport <==> exists_ && file.Some? && current < ChunkedImport.Sum(Sizes(file.value))
    ensures ranImport ==> (success <==> finalCount >= ChunkedImport.Sum(Sizes(file.value)))
    ensures ranImport && !UsesBatchPath(table, setupOk, localInfile) ==>
      imported == ChunkedImport.CommittedRange(Sizes(file.value), EffectiveLoads(file.value, loaded),
                                               ResumeSkip(current, file), |file.value|)
    ensures ranImport && UsesBatchPath(table, setupOk, localInfile) ==>
      imported == BatchImportTotal(table, file, ResumeSkip(current, file), sliceOk)
  {
    if !exists_ || file.None? {
      return false, false, 0;
    }
    var total := ChunkedImport.Sum(Sizes(file.value));
    if current >= total {
      return true, false, 0;
    }
    var skip := CalculateResumePoint(current, file);
    var fellBack;
    imported, fellBack := ImportWithLoadData(table, setupOk, localInfile, file, skip, loaded, sliceOk);
    ranImport := true;
    success := !(finalCount < total);
  }

  /** The `column_mapping` loop of `map_columns`: each legacy column copied when its target is absent. */
  method ApplyColumnMapping(f: Frame) returns (h: Frame)
    requires WellFormed(f)
    ensures WellFormed(h) && h == AliasLegacyColumns(f)
  {
    h := f;
    for i := 0 to |LegacyAliases|
      invariant WellFormed(h) && h == ApplyAliases(f, LegacyAliases[..i])
    {
      ApplyAliasesSnoc(f, LegacyAliases[..i], LegacyAliases[i]);
      assert LegacyAliases[..i + 1] == LegacyAliases[..i] + [LegacyAliases[i]];
      h := CopyColumnIfAbsent(h, LegacyAliases[i].0, LegacyAliases[i].1);
    }
    assert LegacyAliases[..|LegacyAliases|] == LegacyAliases;
  }

  /**
   * `map_columns`: applies the alias copies (`mapped`), then keeps the
   * required columns that are present, in the required order, and reports
   * the rest as missing.
   */
  method MapColumns(f: Frame) returns (g: Frame, existing: seq<string>, missing: seq<string>, mapped: Frame)
    requires WellFormed(f)
    ensures mapped == AliasLegacyColumns(f) && WellFormed(mapped) && |mapped.rows| == |f.rows|
    ensures existing == KeepPresent(RequiredColumns, mapped.columns)
    ensures missing == KeepAbsent(RequiredColumns, mapped.columns)
    ensures forall c :: c in RequiredColumns ==> (c in existing <==> c !in missing)
    ensures forall c :: c in existing ==> c in RequiredColumns && c in mapped.columns
    ensures Select(mapped, existing) == Some(g)
  {
    mapped := ApplyColumnMapping(f);
    g, existing, missing := SelectExisting(mapped, RequiredColumns);
  }

  /** The selected columns follow the required order and, with the missing ones, make up all nine. */
  lemma MapColumnsOrder(f: Frame)
    requires WellFormed(f)
    ensures var e := KeepPresent(RequiredColumns, AliasLegacyColumns(f).columns);
      Distinct(e) && (forall i, j :: 0 <= i < j < |e| ==> ColumnIndex(RequiredColumns, e[i]) < ColumnIndex(RequiredColumns, e[j]))
    ensures |KeepPresent(RequiredColumns, AliasLegacyColumns(f).columns)|
      + |KeepAbsent(RequiredColumns, AliasLegacyColumns(f).columns)| == 9
  {
    assert Distinct(RequiredColumns);
    KeepPresentInOrder(RequiredColumns, AliasLegacyColumns(f).columns);
    KeepPartition(RequiredColumns, AliasLegacyColumns(f).columns);
  }

  /** Every table the choice selects has its file. */
  predicate FilesPresent(choice: SdsUnifiedParquet.TableChoice, fileExists: string -> bool) {
    forall t :: t in SdsUnifiedParquet.SelectedTables(choice) ==> fileExists(t)
  }

  /**
   * The first `main`: a selected table whose file is missing stops the
   * run before it connects; otherwise it runs as the unified importer's
   * `main` does.
   */
  method ImportSelection(choice: SdsUnifiedParquet.TableChoice, fileExists: string -> bool, connected: bool,
                         fileOk: string -> bool)
    returns (processed: seq<string>, success: bool)
    ensures !FilesPresent(choice, fileExists) || !connected ==> processed == [] && !success
    ensures FilesPresent(choice, fileExists) && connected ==>
      && processed == SdsUnifiedParquet.SelectedTables(choice)
      && (success <==> forall i :: 0 <= i < |processed| ==> fileOk(processed[i]))
  {
    if (choice.Voted? || choice.Both?) && !fileExists("account_voted") {
      return [], false;
    }
    if (choice.Unvoted? || choice.Both?) && !fileExists("account_unvoted") {
      return [], false;
    }
    processed, success := SdsUnifiedParquet.ImportSelection(choice, connected, fileOk);
  }
}
