/**
 * `preprocess_csv` of preprocess_csv_for_optimization.py: rewrites a CSV
 * file of the old schema (with leading `row_index` and `unnamed_col`
 * fields) into the nine-column layout of the optimised schema.
 *
 * The input file is the rows the CSV reader yields and whether reading
 * then raises (`None` when it does not exist); the output file is the
 * rows written.  The column lists of the two table types are the ones the
 * validator uses.
 */
module PreprocessCsv {
  import opened Wrappers
  import VerifyCsv

  /** How `preprocess_csv` ends: by raising ValueError, or by returning True or False. */
  datatype Outcome = ValueError | Returned(ok: bool)

  /** `r` is `row[2:]` padded with `''` or truncated to exactly `n` fields. */
  predicate Reshapes(row: seq<string>, r: seq<string>, n: nat) {
    |r| == n && forall k :: 0 <= k < n ==> r[k] == (if k + 2 < |row| then row[k + 2] else "")
  }

  /** One data row: drop two fields, then pad with `append('')` and truncate. */
  method OptimizeRow(row: seq<string>, n: nat) returns (r: seq<string>)
    ensures Reshapes(row, r, n)
  {
    r := if |row| >= 2 then row[2..] else [];
    while |r| < n
      invariant |row| >= 2 ==> r[..|row| - 2] == row[2..]
      invariant |row| >= 2 ==> |r| >= |row| - 2
      invariant forall k :: 0 <= k < |r| && k + 2 >= |row| ==> r[k] == ""
      decreases n - |r|
    {
      r := r + [""];
    }
    r := r[..n];
  }

  /**
   * `preprocess_csv`.  An unknown type raises before any file is opened;
   * a missing input returns False and writes nothing; an input without a
   * header line returns False after the output has been created empty.
   * Otherwise the output is the expected header followed by one reshaped
   * row per data row read, in order, and `rowsProcessed` counts them; the
   * result is True unless the reader then raises, in which case the rows
   * written so far stay in the output and the result is False.
   */
  method Preprocess(input: Option<VerifyCsv.CsvFile>, tableType: string)
    returns (outcome: Outcome, output: Option<seq<seq<string>>>, rowsProcessed: nat)
    ensures VerifyCsv.ExpectedColumns(tableType).None? ==> outcome == ValueError && output == None
    ensures VerifyCsv.ExpectedColumns(tableType).Some? && input.None? ==> outcome == Returned(false) && output == None
    ensures VerifyCsv.ExpectedColumns(tableType).Some? && input.Some? && input.value.lines == [] ==>
      outcome == Returned(false) && output == Some([])
    ensures VerifyCsv.ExpectedColumns(tableType).Some? && input.Some? && input.value.lines != [] ==>
      var expected := VerifyCsv.ExpectedColumns(tableType).value;
      var data := input.value.lines[1..];
      && outcome == Returned(!input.value.broken) && output.Some?
      && |output.value| == |data| + 1 && output.value[0] == expected
      && rowsProcessed == |data|
      && forall j :: 0 <= j < |data| ==> Reshapes(data[j], output.value[j + 1], |expected|)
  {
    rowsProcessed := 0;
    var schema := VerifyCsv.ExpectedColumns(tableType);
    if schema.None? {
      return ValueError, None, 0;
    }
    var expected := schema.value;
    if input.None? {
      return Returned(false), None, 0;
    }
    var lines := input.value.lines;
    var written: seq<seq<string>> := [];
    if lines == [] {
      return Returned(false), Some(written), 0;
    }
    written := written + [expected];
    var data := lines[1..];
    while rowsProcessed < |data|
      invariant rowsProcessed <= |data|
      invariant |written| == rowsProcessed + 1 && written[0] == expected
      invariant forall j :: 0 <= j < rowsProcessed ==> Reshapes(data[j], written[j + 1], |expected|)
    {
      var optimized := OptimizeRow(data[rowsProcessed], |expected|);
      written := written + [optimized];
      rowsProcessed := rowsProcessed + 1;
    }
    return Returned(!input.value.broken), Some(written), rowsProcessed;
  }

  /** A row of the old layout, with exactly two leading fields, keeps all its data fields. */
  lemma ReshapeExact(row: seq<string>, r: seq<string>, n: nat)
    requires |row| == n + 2 && Reshapes(row, r, n)
    ensures r == row[2..]
  {
  }

  /** The fields that survive are the first `n` after the leading two, in order. */
  lemma {:induction false} ReshapeLong(row: seq<string>, r: seq<string>, n: nat)
    requires |row| >= n + 2 && Reshapes(row, r, n)
    ensures r == row[2..n + 2]
  {
    assert forall k :: 0 <= k < n ==> r[k] == row[2..n + 2][k];
  }

  /** A reshaped row is never rejected for its length by the validator. */
  lemma ReshapedRowHasSchemaLength(tableType: string, row: seq<string>, r: seq<string>, num: nat)
    requires VerifyCsv.ExpectedColumns(tableType).Some?
    requires Reshapes(row, r, |VerifyCsv.ExpectedColumns(tableType).value|)
    ensures forall m :: m in VerifyCsv.RowErrors(VerifyCsv.ValidValue, VerifyCsv.ExpectedColumns(tableType).value, r, num) ==>
      !m.RowLength?
  {
    var e := VerifyCsv.ExpectedColumns(tableType).value;
    forall m | m in VerifyCsv.RowErrors(VerifyCsv.ValidValue, e, r, num)
      ensures !m.RowLength?
    {
      VerifyCsv.ValueErrorsSound(VerifyCsv.ValidValue, e, r, num, m);
    }
  }
}
