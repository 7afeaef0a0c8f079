/**
 * import_sds_unified_parquet.py: resumable import of a parquet file into
 * `account_voted` or `account_unvoted`, one row group at a time, first
 * with LOAD DATA and otherwise with batched INSERTs.
 *
 * The parquet file is `Some(frames)` with one frame per row group, or
 * `None` when it cannot be opened.  Database outcomes are parameters:
 * `setupOk` (the session setup statements do not raise), `localInfile`
 * (the value of the `local_infile` variable, if any), `loaded[g]` (the
 * LOAD DATA of group `g` commits) and `sliceOk(g, j)` (the INSERT of
 * slice `j` of group `g` commits).
 */
module SdsUnifiedParquet {
  import opened Wrappers
  import opened Frames
  import ChunkedImport
  import Batching

  datatype TableConfig = TableConfig(columns: seq<string>, scoreField: string, predictionField: string)

  const KeyColumns: seq<string> := ["account_hash_key", "proposal_master_skey", "director_master_skey",
                                   "account_type", "shares_summable", "rank_of_shareholding"]

  /** Rows per INSERT statement on the batch path. */
  const BatchSize: nat := 5000

  /** `get_table_config`; `None` is the ValueError for any other table name. */
  function GetTableConfig(table: string): (r: Option<TableConfig>)
    ensures r.Some? <==> table == "account_voted" || table == "account_unvoted"
    ensures table == "account_voted" ==> r.value.scoreField == "score_model2" && r.value.predictionField == "prediction_model2"
    ensures table == "account_unvoted" ==> r.value.scoreField == "score_model1" && r.value.predictionField == "prediction_model1"
    ensures r.Some? ==> r.value.columns == KeyColumns + [r.value.scoreField, r.value.predictionField, "Target_encoded"]
  {
    if table == "account_voted" then
      Some(TableConfig(KeyColumns + ["score_model2", "prediction_model2", "Target_encoded"], "score_model2", "prediction_model2"))
    else if table == "account_unvoted" then
      Some(TableConfig(KeyColumns + ["score_model1", "prediction_model1", "Target_encoded"], "score_model1", "prediction_model1"))
    else None
  }

  /** Conversion per output position: hash and type as they are, shares and score as floats, the rest as ints. */
  const RowKinds: seq<Kind> := [AsIs, AsInt, AsInt, AsIs, AsFloat, AsInt, AsFloat, AsInt, AsInt]

  /** The rows `process_dataframe_chunk` yields for a frame. */
  function GroupRows(f: Frame, table: string): seq<seq<Value>> {
    match GetTableConfig(table)
    case None => []
    case Some(cfg) => ChunkRows(f, cfg.columns, RowKinds)
  }

  /**
   * `process_dataframe_chunk`: nine values per row, each `None` when its
   * cell is null; a failing conversion or an unknown table gives `[]`.
   */
  method ProcessDataframeChunk(f: Frame, table: string) returns (processed: seq<seq<Value>>)
    ensures GetTableConfig(table).None? ==> processed == []
    ensures GetTableConfig(table).Some? && (forall r :: 0 <= r < |f.rows| ==>
      ConvertRow(f.columns, f.rows[r], GetTableConfig(table).value.columns, RowKinds).Some?) ==>
        |processed| == |f.rows| && forall r :: 0 <= r < |f.rows| ==> |processed[r]| == 9
    ensures processed == GroupRows(f, table)
  {
    var cfg := GetTableConfig(table);
    if cfg.None? {
      return [];
    }
    processed := ProcessChunk(f, cfg.value.columns, RowKinds);
  }

  function Sizes(frames: seq<Frame>): (s: seq<nat>)
    ensures |s| == |frames| && forall g :: 0 <= g < |frames| ==> s[g] == |frames[g].rows|
  {
    seq(|frames|, g requires 0 <= g < |frames| => |frames[g].rows|)
  }

  /** What the batch path returns. */
  function BatchImportTotal(table: string, file: Option<seq<Frame>>, skip: nat, sliceOk: (nat, nat) -> bool): nat {
    if GetTableConfig(table).None? || file.None? then 0
    else
      var frames := file.value;
      |ChunkedImport.BatchCommitted(seq(|frames|, g requires 0 <= g < |frames| => GroupRows(frames[g], table)),
                                    BatchSize, sliceOk, skip, |frames|)|
  }

  /**
   * `import_parquet_with_batch_insert`: groups `skip ..` in order, each cut
   * into slices of 5000 rows.  An unknown table or an unreadable file gives 0.
   */
  method ImportWithBatchInsert(table: string, file: Option<seq<Frame>>, skip: nat, sliceOk: (nat, nat) -> bool)
    returns (imported: nat)
    ensures GetTableConfig(table).None? || file.None? ==> imported == 0
    ensures file.Some? && skip >= |file.value| ==> imported == 0
    ensures imported == BatchImportTotal(table, file, skip, sliceOk)
  {
    if GetTableConfig(table).None? || file.None? {
      return 0;
    }
    var frames := file.value;
    var chunks: seq<seq<seq<Value>>> := [];
    for g := 0 to |frames|
      invariant |chunks| == g && forall q :: 0 <= q < g ==> chunks[q] == GroupRows(frames[q], table)
    {
      var rows := ProcessDataframeChunk(frames[g], table);
      chunks := chunks + [rows];
    }
    assert chunks == seq(|frames|, g requires 0 <= g < |frames| => GroupRows(frames[g], table));
    var committed;
    imported, committed := ChunkedImport.BatchInsertRowGroups(chunks, skip, BatchSize, sliceOk);
  }

  /** The LOAD DATA path hands over to the batch path in these cases. */
  predicate UsesBatchPath(table: string, setupOk: bool, localInfile: Option<string>) {
    GetTableConfig(table).None? || !setupOk || localInfile != Some("ON")
  }

  /**
   * `import_parquet_with_load_data`.  Falls back to the batch path, with
   * the same `skip`, when the table is unknown, setup raises or
   * `local_infile` is not ON; otherwise loads groups `skip ..` and returns
   * the rows of those whose load committed.
   */
  method ImportWithLoadData(table: string, setupOk: bool, localInfile: Option<string>, file: Option<seq<Frame>>,
                            skip: nat, loaded: seq<bool>, sliceOk: (nat, nat) -> bool)
    returns (imported: nat, fellBack: bool)
    requires file.Some? ==> |loaded| == |file.value|
    ensures fellBack <==> UsesBatchPath(table, setupOk, localInfile)
    ensures fellBack ==> imported == BatchImportTotal(table, file, skip, sliceOk)
    ensures !fellBack && file.None? ==> imported == 0
    ensures !fellBack && file.Some? ==>
      imported == ChunkedImport.CommittedRange(Sizes(file.value), loaded, skip, |file.value|)
  {
    if UsesBatchPath(table, setupOk, localInfile) {
      imported := ImportWithBatchInsert(table, file, skip, sliceOk);
      return imported, true;
    }
    fellBack := false;
    if file.None? {
      return 0, false;
    }
    var visited;
    imported, visited := ChunkedImport.LoadRowGroups(Sizes(file.value), skip, loaded);
  }

  function ResumeSkip(count: nat, file: Option<seq<Frame>>): nat {
    if count == 0 || file.None? then 0 else ChunkedImport.ResumePoint(count, Sizes(file.value))
  }

  /**
   * `calculate_resume_point`: 0 for an empty destination or an unreadable
   * file, otherwise the number of leading groups the count covers.
   */
  method CalculateResumePoint(count: nat, file: Option<seq<Frame>>) returns (skip: nat)
    ensures count == 0 || file.None? ==> skip == 0
    ensures count > 0 && file.Some? ==> skip == ChunkedImport.ResumePoint(count, Sizes(file.value))
    ensures skip == ResumeSkip(count, file)
  {
    if count == 0 || file.None? {
      return 0;
    }
    var cumulative;
    skip, cumulative := ChunkedImport.ResumeScan(count, Sizes(file.value));
  }

  /**
   * When the destination holds exactly the first `j` row groups, the
   * following group is non-empty and every LOAD DATA commits, the resumed
   * import brings the destination to the file's row count, so
   * `process_single_file` reports success.
   */
  lemma ResumedImportReachesTotal(frames: seq<Frame>, loaded: seq<bool>, j: nat)
    requires |loaded| == |frames| && j <= |frames|
    requires j < |frames| ==> |frames[j].rows| > 0
    requires forall g :: 0 <= g < |frames| ==> loaded[g]
    ensures var sizes := Sizes(frames); var current := ChunkedImport.Sum(sizes[..j]);
      current + ChunkedImport.CommittedRange(sizes, loaded, ResumeSkip(current, Some(frames)), |frames|)
        == ChunkedImport.Sum(sizes)
  {
    var sizes := Sizes(frames);
    var current := ChunkedImport.Sum(sizes[..j]);
    if current == 0 {
      ChunkedImport.CommittedBounded(sizes, loaded, 0, |sizes|);
      assert sizes[0..|sizes|] == sizes;
    } else {
      ChunkedImport.ResumedLoadCompletes(sizes, loaded, j);
    }
  }

  /**
   * `process_single_file`.  `current` and `finalCount` are the destination
   * counts before and after the import.  A missing or unreadable file
   * fails; a destination already holding the file's rows succeeds without
   * importing; otherwise the import resumes and success means the final
   * count reached the file's row count.
   */
  method ProcessSingleFile(exists_: bool, current: nat, table: string, setupOk: bool, localInfile: Option<string>,
                           file: Option<seq<Frame>>, loaded: seq<bool>, sliceOk: (nat, nat) -> bool, finalCount: nat)
    returns (success: bool, ranImport: bool, imported: nat)
    requires file.Some? ==> |loaded| == |file.value|
    ensures !exists_ || file.None? ==> !success && !ranImport
    ensures exists_ && file.Some? && current >= ChunkedImport.Sum(Sizes(file.value)) ==> success && !ranImport
    ensures ranImport <==> exists_ && file.Some? && current < ChunkedImport.Sum(Sizes(file.value))
    ensures ranImport ==> (success <==> finalCount >= ChunkedImport.Sum(Sizes(file.value)))
    ensures ranImport && !UsesBatchPath(table, setupOk, localInfile) ==>
      imported == ChunkedImport.CommittedRange(Sizes(file.value), loaded, ResumeSkip(current, file), |file.value|)
    ensures ranImport && UsesBatchPath(table, setupOk, localInfile) ==>
      imported == BatchImportTotal(table, file, ResumeSkip(current, file), sliceOk)
  {
    if !exists_ || file.None? {
      return false, false, 0;
    }
    var total := ChunkedImport.Sum(Sizes(file.value));
    if current >= total {
      return true, false, 0;
    }
    var skip := CalculateResumePoint(current, file);
    var fellBack;
    imported, fellBack := ImportWithLoadData(table, setupOk, localInfile, file, skip, loaded, sliceOk);
    ranImport := true;
    success := !(finalCount < total);
  }

  /** `--table`: `voted`, `unvoted` or `both`. */
  datatype TableChoice = Voted | Unvoted | Both

  /** The tables `main` processes under a choice, the voted one first. */
  function SelectedTables(choice: TableChoice): (r: seq<string>)
    ensures "account_voted" in r <==> !choice.Unvoted?
    ensures "account_unvoted" in r <==> !choice.Voted?
    ensures 1 <= |r| <= 2 && (|r| == 2 ==> r[0] == "account_voted" && r[1] == "account_unvoted")
  {
    match choice
    case Voted => ["account_voted"]
    case Unvoted => ["account_unvoted"]
    case Both => ["account_voted", "account_unvoted"]
  }

  /**
   * `main`: without a connection nothing is processed; otherwise each
   * selected table is processed, the second even after the first failed,
   * and the run succeeds exactly when every selected one did.
   * `fileOk(t)` is what `process_single_file` reports for table `t`.
   */
  method ImportSelection(choice: TableChoice, connected: bool, fileOk: string -> bool)
    returns (processed: seq<string>, success: bool)
    ensures !connected ==> processed == [] && !success
    ensures connected ==> processed == SelectedTables(choice)
    ensures connected ==> (success <==> forall i :: 0 <= i < |processed| ==> fileOk(processed[i]))
  {
    if !connected {
      return [], false;
    }
    processed := [];
    success := true;
    if choice.Voted? || choice.Both? {
      processed := processed + ["account_voted"];
      if !fileOk("account_voted") {
        success := false;
      }
    }
    if choice.Unvoted? || choice.Both? {
      processed := processed + ["account_unvoted"];
      if !fileOk("account_unvoted") {
        success := false;
      }
    }
  }
}
