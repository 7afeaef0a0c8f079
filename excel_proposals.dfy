/**
 * import_excel_proposals.py: appends the rows of a spreadsheet to
 * `proposals_predictions`, one INSERT per row.  A row that raises, or
 * whose INSERT fails, is counted as failed and skipped, and one commit
 * after the loop keeps the others.
 *
 * A cell is what pandas hands over: missing (`pd.isna`, NaN included), a
 * boolean, a string or a number.  The date and float columns are left
 * out of the tuple: their converters catch every exception they can meet,
 * so they never fail a row.
 */
module ExcelProposals {
  import opened Wrappers
  import opened PyText
  import opened PyNum
  import opened RowStream
  import opened CappedLoop
  import ProposalsPredictions
  import ProposalsBulk
  import PredictionsSds

  datatype Cell = Missing | Bool(b: bool) | Str(s: string) | Number(n: Num)

  /** `pd.isna(value) or value is None`. */
  predicate IsNa(c: Cell) {
    c.Missing? || (c.Number? && c.n.NaN?)
  }

  /** `c.isdigit() or c in '.-'`. */
  predicate PercentChar(c: char) {
    IsDigit(c) || c == '.' || c == '-'
  }

  /** The characters `clean_percentage_value` keeps, in order. */
  function Keep(s: string): string {
    ProposalsPredictions.Filter(s, PercentChar)
  }

  /**
   * `clean_percentage_value`: a missing cell gives None; a string keeps
   * only its digits, points and minus signs, and an empty remainder or one
   * `float()` rejects gives None; a boolean or number goes to `float()`.
   */
  function CleanPercentage(c: Cell): (r: Option<Num>)
    ensures IsNa(c) ==> r == None
    ensures c.Str? ==> r == (if Keep(c.s) == [] then None else ParseFloat(Keep(c.s)))
  {
    match c
    case Missing => None
    case Bool(b) => Some(Finite(if b then 1 else 0, 0))
    case Str(s) => if Keep(s) == [] then None else ParseFloat(Keep(s))
    case Number(n) => if n.NaN? then None else Some(n)
  }

  /** What is kept holds only digits, points and minus signs, and a text of only those is kept whole. */
  lemma {:induction false} KeepMeaning(s: string)
    ensures forall c :: c in Keep(s) ==> PercentChar(c)
    ensures (forall c :: c in s ==> PercentChar(c)) ==> Keep(s) == s
    decreases |s|
  {
    if s != [] {
      var front := s[..|s| - 1];
      KeepMeaning(front);
      assert s == front + [s[|s| - 1]];
      assert forall c :: c in front ==> c in s;
    }
  }

  /** Filtering a concatenation filters each part. */
  lemma {:induction false} KeepConcat(a: string, b: string)
    ensures Keep(a + b) == Keep(a) + Keep(b)
    decreases |b|
  {
    if b != [] {
      var front := b[..|b| - 1];
      var x := b[|b| - 1];
      KeepConcat(a, front);
      assert a + b == (a + front) + [x];
      assert b == front + [x];
      ProposalsPredictions.FilterAppend(a + front, x, PercentChar);
      ProposalsPredictions.FilterAppend(front, x, PercentChar);
    } else {
      assert a + b == a;
      assert Keep(b) == [];
    }
  }

  /** A percent sign after a rendered integer is dropped: `'42%'` reads as 42. */
  lemma PercentOfInteger(n: int)
    ensures CleanPercentage(Str(IntToString(n) + "%")) == Some(Finite(n, 0))
  {
    KeepIntegerPercent(n);
    ParseFloatOfIntString(n);
  }

  lemma KeepIntegerPercent(n: int)
    ensures Keep(IntToString(n) + "%") == IntToString(n)
  {
    var s := IntToString(n);
    PredictionsSds.IntegerChars(n);
    KeepMeaning(s);
    KeepConcat(s, "%");
    assert Keep("%") == [] by {
      assert "%" == [] + ['%'];
      ProposalsPredictions.FilterAppend([], '%', PercentChar);
    }
  }

  /**
   * `safe_int_convert`: `int(float(value))`; a missing cell and the
   * ValueError give None.  The OverflowError of an infinity is not caught
   * and fails the row: the outer `None`.
   */
  function SafeIntConvert(c: Cell): (r: Option<Option<int>>)
    ensures IsNa(c) ==> r == Some(None)
    ensures r.None? <==> !IsNa(c) && IntOfCell(c).OverflowErr?
    ensures r.Some? && r.value.Some? ==> IntOfCell(c) == IntOk(r.value.value)
  {
    if IsNa(c) then Some(None)
    else match IntOfCell(c)
      case IntOk(k) => Some(Some(k))
      case ValueErr => Some(None)
      case OverflowErr => None
  }

  /** `int(float(value))` of a cell that is not missing. */
  function IntOfCell(c: Cell): IntResult {
    match c
    case Missing => ValueErr
    case Bool(b) => IntOk(if b then 1 else 0)
    case Str(s) => IntOfFloatString(s)
    case Number(n) => IntOf(n)
  }

  /** A rendered integer, as text or as a number, converts to itself. */
  lemma SafeIntOfInteger(n: int)
    ensures SafeIntConvert(Str(IntToString(n))) == Some(Some(n))
    ensures SafeIntConvert(Number(Finite(n, 0))) == Some(Some(n))
  {
    IntOfIntegerCell(n);
    assert !IsNa(Str(IntToString(n)));
    assert IntOf(Finite(n, 0)) == IntOk(n * Pow10(0)) == IntOk(n);
    assert !IsNa(Number(Finite(n, 0)));
  }

  lemma IntOfIntegerCell(n: int)
    ensures IntOfCell(Str(IntToString(n))) == IntOk(n)
  {
    var s := IntToString(n);
    assert IntOfCell(Str(s)) == IntOfFloatString(s);
    ParseFloatOfIntString(n);
  }

  /** An infinite number fails the row, while text that is no number only gives None. */
  lemma InfinityFailsRow(neg: bool, s: string)
    requires ParseFloat(s).None?
    ensures SafeIntConvert(Number(Inf(neg))).None?
    ensures SafeIntConvert(Str(s)) == Some(None)
  {
    assert IntOfCell(Number(Inf(neg))) == IntOf(Inf(neg));
    assert IntOfCell(Str(s)) == IntOfFloatString(s) == ValueErr;
  }

  /** The words `safe_bool_convert` reads as True, after lower-casing. */
  predicate YesWord(w: string) {
    w == "true" || w == "1" || w == "yes" || w == "y"
  }

  /**
   * `safe_bool_convert`: a boolean passes through; a string is True
   * exactly when its lower-cased text (not stripped) is a yes word, and
   * never None; a number is `bool(int(value))`, None when `int()` raises.
   */
  function SafeBoolConvert(c: Cell): (r: Option<bool>)
    ensures IsNa(c) ==> r == None
    ensures c.Bool? ==> r == Some(c.b)
    ensures c.Str? ==> r == Some(YesWord(Lower(c.s)))
    ensures c.Number? && !IsNa(c) ==> (r.Some? <==> IntOf(c.n).IntOk?) && (r.Some? ==> r.value == (IntOf(c.n).value != 0))
  {
    if IsNa(c) then None
    else match c
      case Bool(b) => Some(b)
      case Str(s) => Some(YesWord(Lower(s)))
      case Number(n) => if IntOf(n).IntOk? then Some(IntOf(n).value != 0) else None
      case Missing => None
  }

  /** Strings are read without regard to case. */
  lemma SafeBoolIgnoresCase(s: string)
    ensures SafeBoolConvert(Str(Upper(s))) == SafeBoolConvert(Str(s))
  {
    ProposalsBulk.LowerOfUpper(s);
  }

  /** A number is True exactly when its integer part is not zero: 0.5 is False. */
  lemma HalfIsFalse()
    ensures SafeBoolConvert(Number(Finite(5, -1))) == Some(false)
  {
    assert TruncDiv(5, Pow10(1)) == 0;
  }

  type Row = map<string, Cell>

  /** The text columns, read with `str(v) if pd.notna(v) else None`, in the order of the INSERT. */
  const TextKeys: seq<string> := PredictionsSds.TextKeys[..11]

  /** The two percentage columns read with `clean_percentage_value`. */
  const PercentKeys: seq<string> := PredictionsSds.TextKeys[11..]

  const IntKeys: seq<string> := ["proposal_master_skey", "director_master_skey", "director_number"]

  /** The cell of a column known to be present. */
  function At(row: Row, k: string): Cell {
    if k in row then row[k] else Missing
  }

  predicate HasColumns(row: Row) {
    forall k :: k in PredictionsSds.RequiredKeys ==> k in row
  }

  /** The values of one row tuple, without its date and float columns. */
  datatype ExcelPrediction = ExcelPrediction(
    keys: seq<Option<int>>, texts: seq<Option<string>>, flags: seq<Option<bool>>, percents: seq<Option<Num>>)

  /** `str(v)`; pandas' rendering of a non-string cell is a parameter. */
  function Text(render: Cell -> string, c: Cell): Option<string> {
    if IsNa(c) then None else if c.Str? then Some(c.s) else Some(render(c))
  }

  /** No integer column raises. */
  predicate KeysRead(row: Row) {
    forall i :: 0 <= i < |IntKeys| ==> SafeIntConvert(At(row, IntKeys[i])).Some?
  }

  /** The tuple of one row; `None` when building it raises: a missing column or an infinite integer cell. */
  function ProcessRow(render: Cell -> string, row: Row): (r: Option<ExcelPrediction>)
    ensures r.Some? <==> HasColumns(row) && KeysRead(row)
  {
    if !HasColumns(row) || !KeysRead(row) then None
    else Some(ExcelPrediction(
      seq(|IntKeys|, i requires 0 <= i < |IntKeys| && KeysRead(row) => SafeIntConvert(At(row, IntKeys[i])).value),
      seq(|TextKeys|, i requires 0 <= i < |TextKeys| => Text(render, At(row, TextKeys[i]))),
      seq(|PredictionsSds.BoolKeys|, i requires 0 <= i < |PredictionsSds.BoolKeys| =>
        SafeBoolConvert(At(row, PredictionsSds.BoolKeys[i]))),
      seq(|PercentKeys|, i requires 0 <= i < |PercentKeys| => CleanPercentage(At(row, PercentKeys[i])))))
  }

  function Convert(render: Cell -> string): Row -> Option<ExcelPrediction> {
    row => ProcessRow(render, row)
  }

  /**
   * The row loop of `import_excel_to_mysql`: `inserted` is what the
   * commit after the loop keeps; every row is counted once, as a success
   * or as a failure.
   */
  method InsertRows(render: Cell -> string, rows: seq<Row>, ok: nat -> bool)
    returns (inserted: seq<ExcelPrediction>, successful: nat, failed: nat)
    ensures var outs := Attempts(Convert(render), ok, rows);
      inserted == Good(Id, outs) && failed == Bad(Id, outs)
    ensures successful == |inserted| && successful + failed == |rows|
  {
    ghost var outs := Attempts(Convert(render), ok, rows);
    inserted, successful, failed := [], 0, 0;
    var i := 0;
    while i < |rows|
      invariant i <= |rows|
      invariant inserted == Good(Id, outs[..i]) && failed == Bad(Id, outs[..i])
      invariant successful == |inserted|
    {
      GoodSnoc(Id, outs, i);
      var data := ProcessRow(render, rows[i]);
      if data.Some? && ok(i) {
        inserted := inserted + [data.value];
        successful := successful + 1;
      } else {
        failed := failed + 1;
      }
      i := i + 1;
    }
    assert outs[..i] == outs;
  }

  /**
   * `import_excel_to_mysql`: a sheet that cannot be read (`None`) or a
   * failed connection returns False before anything is inserted; otherwise
   * the table gains the inserted rows when the commit succeeds, and the
   * result is False, with the table unchanged, when it fails.
   */
  method ImportExcelToMysql(render: Cell -> string, table0: seq<ExcelPrediction>, sheet: Option<seq<Row>>, connected: bool,
                            ok: nat -> bool, commitOk: bool)
    returns (result: bool, table: seq<ExcelPrediction>)
    ensures sheet.None? || !connected ==> !result && table == table0
    ensures sheet.Some? && connected ==>
      && result == commitOk
      && table == if commitOk then table0 + Good(Id, Attempts(Convert(render), ok, sheet.value)) else table0
  {
    if sheet.None? || !connected {
      return false, table0;
    }
    var inserted, successful, failed := InsertRows(render, sheet.value, ok);
    if commitOk {
      return true, table0 + inserted;
    }
    return false, table0;
  }

  /** With every column present, no infinite key and every INSERT succeeding, each row is inserted once, in order. */
  lemma CleanSheet(render: Cell -> string, rows: seq<Row>, ok: nat -> bool)
    requires forall j :: 0 <= j < |rows| ==> HasColumns(rows[j]) && KeysRead(rows[j]) && ok(j)
    ensures var outs := Attempts(Convert(render), ok, rows);
      Bad(Id, outs) == 0 && Good(Id, outs) == Processed(Convert(render), rows).0 && |Good(Id, outs)| == |rows|
  {
    var f := Convert(render);
    forall j | 0 <= j < |rows|
      ensures f(rows[j]).Some? && ok(j)
    {
    }
    InsertEachClean(f, ok, rows, 0);
    GoodWhenNoneRaise(f, rows);
  }
}
