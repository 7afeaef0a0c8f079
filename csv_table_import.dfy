/**
 * The CSV-to-table loop that import_csv.py, import_csv_update_20250817.py
 * and import_sds_account_voted.py share: every data row is padded with
 * `''` to the column count, truncated to it, and converted cell by cell
 * according to the column's name; converted rows are collected into a
 * batch that is inserted with one `executemany` and committed once it
 * holds 1000 rows, and the remainder is inserted at the end.
 *
 * The database is a sequence of inserted tuples and a predicate `fits`
 * saying whether the server accepts one tuple; a multi-row INSERT is
 * accepted exactly when every tuple fits.  A row that raises during
 * conversion is skipped and so is a failing `executemany` inside the
 * loop, but the batch that failed is not cleared, so it is retried,
 * one row larger, on every following row.
 */
module CsvTableImport {
  import opened Wrappers
  import opened PyNum
  import PyText

  const BatchSize := 1000

  /** The column names the scripts give a type or a conversion; any other name is `OtherColumn`. */
  datatype Column =
    | RowIndex | UnnamedCol | AccountHashKey | ProposalMasterSkey | DirectorMasterSkey
    | AccountType | SharesSummable | RankOfShareholding | ScoreModel1 | ScoreModel2
    | PredictionModel1 | PredictionModel2 | TargetEncoded | OtherColumn

  function ColumnOf(name: string): Column {
    if name == "row_index" then RowIndex
    else if name == "unnamed_col" then UnnamedCol
    else if name == "account_hash_key" then AccountHashKey
    else if name == "proposal_master_skey" then ProposalMasterSkey
    else if name == "director_master_skey" then DirectorMasterSkey
    else if name == "account_type" then AccountType
    else if name == "shares_summable" then SharesSummable
    else if name == "rank_of_shareholding" then RankOfShareholding
    else if name == "score_model1" then ScoreModel1
    else if name == "score_model2" then ScoreModel2
    else if name == "prediction_model1" then PredictionModel1
    else if name == "prediction_model2" then PredictionModel2
    else if name == "Target_encoded" then TargetEncoded
    else OtherColumn
  }

  /** The MySQL column types of the schemas. */
  datatype SqlType = Int | TinyInt | Decimal(precision: nat, scale: nat) | VarChar(length: nat, notNull: bool)

  function TypeText(t: SqlType): string {
    match t
    case Int => "INT"
    case TinyInt => "TINYINT"
    case Decimal(p, d) => "DECIMAL(" + NatToString(p) + "," + NatToString(d) + ")"
    case VarChar(n, nn) => "VARCHAR(" + NatToString(n) + ")" + (if nn then " NOT NULL" else "")
  }

  /**
   * `create_table_schema`'s loop: one `name TYPE` definition per column,
   * the type chosen from the name by `typeOf`.
   */
  method ColumnDefinitions(typeOf: Column -> SqlType, columns: seq<string>) returns (defs: seq<string>)
    ensures |defs| == |columns|
    ensures forall k :: 0 <= k < |columns| ==> defs[k] == columns[k] + " " + TypeText(typeOf(ColumnOf(columns[k])))
  {
    defs := [];
    for i := 0 to |columns|
      invariant |defs| == i
      invariant forall k :: 0 <= k < i ==> defs[k] == columns[k] + " " + TypeText(typeOf(ColumnOf(columns[k])))
    {
      defs := defs + [columns[i] + " " + TypeText(typeOf(ColumnOf(columns[i])))];
    }
  }

  /** The definitions of CREATE TABLE: an auto-increment `id` key, the columns, then `created_at`. */
  function TableDefinitions(defs: seq<string>): (r: seq<string>)
    ensures |r| == |defs| + 2 && r[0] == IdDefinition && r[|r| - 1] == CreatedAtDefinition
    ensures r[1..|r| - 1] == defs
  {
    [IdDefinition] + defs + [CreatedAtDefinition]
  }

  /**
   * `create_table_schema`: the definitions of the CREATE TABLE statement
   * for `columns`, with the script's own column types `typeOf`.
   */
  method CreateTableSchema(typeOf: Column -> SqlType, columns: seq<string>) returns (r: seq<string>)
    ensures |r| == |columns| + 2 && r[0] == IdDefinition && r[|r| - 1] == CreatedAtDefinition
    ensures forall k :: 0 <= k < |columns| ==>
      r[k + 1] == columns[k] + " " + TypeText(typeOf(ColumnOf(columns[k])))
  {
    var defs := ColumnDefinitions(typeOf, columns);
    r := TableDefinitions(defs);
  }

  const IdDefinition := "id INT AUTO_INCREMENT PRIMARY KEY"
  const CreatedAtDefinition := "created_at TIMESTAMP DEFAULT CURRENT_TIMESTAMP"

  /** A value bound to a `%s` placeholder: NULL, an int, a float or a str. */
  datatype Cell = Null | IntCell(i: int) | FloatCell(x: Num) | Text(s: string)

  type Tuple = seq<Cell>

  /**
   * How a column's non-empty text is converted, as selected by the
   * column's name: `int(float(v))` failing to None, `float(v)` failing to
   * None, `int(float(v))` failing to 0, or the text itself.
   */
  datatype Kind = IntOrNull | FloatOrNull | IntOrZero | TextKind

  /** One conversion per column, chosen by the script's own table `kindOf` from the column's name. */
  function KindsBy(kindOf: Column -> Kind, columns: seq<string>): (r: seq<Kind>)
    ensures |r| == |columns| && forall k :: 0 <= k < |columns| ==> r[k] == kindOf(ColumnOf(columns[k]))
  {
    seq(|columns|, k requires 0 <= k < |columns| => kindOf(ColumnOf(columns[k])))
  }

  /**
   * One cell.  `None` is the OverflowError that `int(float('inf'))`
   * raises: the converters catch only ValueError and TypeError, so it
   * reaches the per-row handler and the row is skipped.
   */
  function ConvertCell(kind: Kind, value: string): Option<Cell> {
    if value == "" then Some(Null)
    else
      match kind
      case IntOrNull =>
        (match IntOfFloatString(value)
         case IntOk(n) => Some(IntCell(n))
         case ValueErr => Some(Null)
         case OverflowErr => None)
      case IntOrZero =>
        (match IntOfFloatString(value)
         case IntOk(n) => Some(IntCell(n))
         case ValueErr => Some(IntCell(0))
         case OverflowErr => None)
      case FloatOrNull =>
        (match ParseFloat(value)
         case Some(x) => Some(FloatCell(x))
         case None => Some(Null))
      case TextKind => Some(Text(value))
  }

  /** Field `k` of a row once it has been padded with `''`. */
  function Field(row: seq<string>, k: nat): string {
    if k < |row| then row[k] else ""
  }

  /** A cell converter: `None` when the conversion raises. */
  type Converter = (Kind, string) -> Option<Cell>

  /** The first `m` converted cells of a row, or `None` once one raises. */
  function ConvertPrefix(conv: Converter, kinds: seq<Kind>, row: seq<string>, m: nat): Option<Tuple>
    requires m <= |kinds|
  {
    if m == 0 then Some([])
    else
      match ConvertPrefix(conv, kinds, row, m - 1)
      case None => None
      case Some(p) =>
        match conv(kinds[m - 1], Field(row, m - 1))
        case None => None
        case Some(c) => Some(p + [c])
  }

  /** The converted row, `None` when the row is skipped. */
  function ConvertRow(kinds: seq<Kind>, row: seq<string>): Option<Tuple> {
    ConvertPrefix(ConvertCell, kinds, row, |kinds|)
  }

  /**
   * A row is skipped exactly when one of its first `m` padded fields
   * raises; otherwise cell `k` is the conversion of field `k`.
   */
  lemma {:induction false} ConvertPrefixMeaning(conv: Converter, kinds: seq<Kind>, row: seq<string>, m: nat)
    requires m <= |kinds|
    ensures ConvertPrefix(conv, kinds, row, m).Some? <==>
      forall k :: 0 <= k < m ==> conv(kinds[k], Field(row, k)).Some?
    ensures ConvertPrefix(conv, kinds, row, m).Some? ==>
      var t := ConvertPrefix(conv, kinds, row, m).value;
      |t| == m && forall k :: 0 <= k < m ==> t[k] == conv(kinds[k], Field(row, k)).value
  {
    if m > 0 {
      ConvertPrefixMeaning(conv, kinds, row, m - 1);
    }
  }

  /** `ConvertPrefixMeaning` for the converter of the import scripts. */
  lemma ConvertRowMeaning(kinds: seq<Kind>, row: seq<string>)
    ensures ConvertRow(kinds, row).Some? <==>
      forall k :: 0 <= k < |kinds| ==> ConvertCell(kinds[k], Field(row, k)).Some?
    ensures ConvertRow(kinds, row).Some? ==>
      var t := ConvertRow(kinds, row).value;
      |t| == |kinds| && forall k :: 0 <= k < |kinds| ==> t[k] == ConvertCell(kinds[k], Field(row, k)).value
  {
    ConvertPrefixMeaning(ConvertCell, kinds, row, |kinds|);
  }

  /** Once a prefix raises, every longer prefix does. */
  lemma {:induction false} PrefixRaiseStays(conv: Converter, kinds: seq<Kind>, row: seq<string>, m: nat, n: nat)
    requires m <= n <= |kinds| && ConvertPrefix(conv, kinds, row, m).None?
    ensures ConvertPrefix(conv, kinds, row, n).None?
    decreases n - m
  {
    if m < n {
      PrefixRaiseStays(conv, kinds, row, m + 1, n);
    }
  }

  /**
   * The per-row body of the loop: pad the row, then convert the first
   * `|kinds|` fields in order, stopping at the first one that raises.
   */
  method ProcessRow(kinds: seq<Kind>, row: seq<string>) returns (r: Option<Tuple>)
    ensures r == ConvertRow(kinds, row)
  {
    var padded := row;
    if |padded| < |kinds| {
      padded := padded + seq(|kinds| - |row|, _ => "");
    }
    var cells: Tuple := [];
    var i := 0;
    while i < |kinds|
      invariant i <= |kinds| <= |padded|
      invariant ConvertPrefix(ConvertCell, kinds, row, i) == Some(cells)
    {
      assert padded[i] == Field(row, i);
      var c := ConvertCell(kinds[i], padded[i]);
      if c.None? {
        PrefixRaiseStays(ConvertCell, kinds, row, i + 1, |kinds|);
        return None;
      }
      cells := cells + [c.value];
      i := i + 1;
    }
    return Some(cells);
  }

  /** An empty field is NULL whatever the column. */
  lemma EmptyIsNull(kind: Kind)
    ensures ConvertCell(kind, "") == Some(Null)
  {
  }

  /** Integer columns read back every rendered integer. */
  lemma IntegerCells(n: int, kind: Kind)
    requires kind == IntOrNull || kind == IntOrZero
    ensures ConvertCell(kind, IntToString(n)) == Some(IntCell(n))
  {
    IntToStringParts(n);
    ParseFloatOfIntString(n);
  }

  /** `int(float('inf'))` raises, so a row with `inf` in an integer column is skipped. */
  lemma InfinityRaises(kind: Kind)
    requires kind == IntOrNull || kind == IntOrZero
    ensures ConvertCell(kind, "inf") == None
  {
    InfWord();
    assert ParseFloat("inf") == Some(Inf(false));
    assert IntOfFloatString("inf") == OverflowErr;
  }

  lemma InfWord()
    ensures PyText.Strip("inf") == "inf" && SplitSign("inf") == (false, "inf") && PyText.Lower("inf") == "inf"
  {
    StripWord("inf");
    LowerWord("inf");
  }

  lemma StripWord(s: string)
    requires forall i :: 0 <= i < |s| ==> 'a' <= s[i] <= 'z'
    ensures PyText.Strip(s) == s
  {
    if s != [] {
      assert !PyText.IsSpace(s[0]) && !PyText.IsSpace(s[|s| - 1]);
    }
    PyText.StripClean(s);
  }

  lemma LowerWord(s: string)
    requires forall i :: 0 <= i < |s| ==> 'a' <= s[i] <= 'z'
    ensures PyText.Lower(s) == s
  {
  }

  /** A text that is no number is NULL in an integer or float column and 0 in a prediction column. */
  lemma UnparsableCells(value: string)
    requires value != "" && ParseFloat(value).None?
    ensures ConvertCell(IntOrNull, value) == Some(Null)
    ensures ConvertCell(FloatOrNull, value) == Some(Null)
    ensures ConvertCell(IntOrZero, value) == Some(IntCell(0))
  {
  }

  /** The rows that convert, in file order. */
  function Converted(kinds: seq<Kind>, rows: seq<seq<string>>): seq<Tuple> {
    if rows == [] then []
    else
      var rest := Converted(kinds, rows[..|rows| - 1]);
      match ConvertRow(kinds, rows[|rows| - 1])
      case None => rest
      case Some(t) => rest + [t]
  }

  /** No converted row is longer than the input. */
  lemma {:induction false} ConvertedBound(kinds: seq<Kind>, rows: seq<seq<string>>)
    ensures |Converted(kinds, rows)| <= |rows|
    ensures (forall j :: 0 <= j < |rows| ==> ConvertRow(kinds, rows[j]).Some?) ==>
      |Converted(kinds, rows)| == |rows|
  {
    if rows != [] {
      var p := rows[..|rows| - 1];
      assert forall j :: 0 <= j < |p| ==> p[j] == rows[j];
      ConvertedBound(kinds, p);
    }
  }

  /** The number of leading tuples the server accepts: the first rejected one's index, or all. */
  function GoodPrefix(fits: Tuple -> bool, ts: seq<Tuple>): (r: nat)
    ensures r <= |ts|
    ensures forall i :: 0 <= i < r ==> fits(ts[i])
    ensures r < |ts| ==> !fits(ts[r])
  {
    if ts == [] then 0
    else if fits(ts[0]) then 1 + GoodPrefix(fits, ts[1..])
    else 0
  }

  /** The three clauses of `GoodPrefix` determine it. */
  lemma GoodPrefixUnique(fits: Tuple -> bool, ts: seq<Tuple>, p: nat)
    requires p <= |ts| && (forall i :: 0 <= i < p ==> fits(ts[i]))
    requires p < |ts| ==> !fits(ts[p])
    ensures GoodPrefix(fits, ts) == p
  {
  }

  /** Appending a tuple extends the accepted prefix only when the prefix was the whole sequence. */
  lemma GoodPrefixSnoc(fits: Tuple -> bool, ts: seq<Tuple>, t: Tuple)
    ensures GoodPrefix(fits, ts + [t]) ==
      if GoodPrefix(fits, ts) < |ts| then GoodPrefix(fits, ts)
      else if fits(t) then |ts| + 1 else |ts|
  {
    var g := GoodPrefix(fits, ts);
    var u := ts + [t];
    assert forall i :: 0 <= i < |ts| ==> u[i] == ts[i];
    if g < |ts| {
      GoodPrefixUnique(fits, u, g);
    } else if fits(t) {
      GoodPrefixUnique(fits, u, |ts| + 1);
    } else {
      GoodPrefixUnique(fits, u, |ts|);
    }
  }

  /** The server accepts a multi-row INSERT of `b` exactly when it accepts each tuple. */
  predicate AllFit(fits: Tuple -> bool, b: seq<Tuple>) {
    forall i :: 0 <= i < |b| ==> fits(b[i])
  }

  /** The rows committed by the loop: the accepted prefix rounded down to whole batches. */
  function CommittedLength(g: nat): (r: nat)
    ensures r <= g && r % BatchSize == 0 && g - r < BatchSize
  {
    g - g % BatchSize
  }

  /** The state of the loop: inserted table, pending batch and `imported_count`. */
  datatype Loader = Loader(table: seq<Tuple>, batch: seq<Tuple>, count: nat)

  /**
   * The loop's invariant after the rows that converted to `c`: exactly
   * the whole batches of the accepted prefix are committed, and every
   * later converted row is pending.
   */
  predicate Tracks(fits: Tuple -> bool, table0: seq<Tuple>, c: seq<Tuple>, s: Loader) {
    TracksAt(table0, c, s, CommittedLength(GoodPrefix(fits, c)))
  }

  /** The first `k` converted rows are committed and the rest are pending. */
  predicate TracksAt(table0: seq<Tuple>, c: seq<Tuple>, s: Loader, k: nat) {
    k <= |c| && s.table == table0 + c[..k] && s.batch == c[k..] && s.count == k
  }

  /** Committing the pending rows and `t` commits all of `c + [t]`. */
  lemma CommitStep(table0: seq<Tuple>, c: seq<Tuple>, s: Loader, t: Tuple, k: nat)
    requires TracksAt(table0, c, s, k)
    ensures TracksAt(table0, c + [t], Loader(s.table + (s.batch + [t]), [], s.count + |s.batch + [t]|), |c| + 1)
  {
    SplitSnoc(table0, c, t, k);
  }

  /** Adding `t` to the pending rows keeps the committed ones. */
  lemma PendStep(table0: seq<Tuple>, c: seq<Tuple>, s: Loader, t: Tuple, k: nat)
    requires TracksAt(table0, c, s, k)
    ensures TracksAt(table0, c + [t], Loader(s.table, s.batch + [t], s.count), k)
    ensures s.batch + [t] == (c + [t])[k..]
  {
    SplitSnoc(table0, c, t, k);
  }

  /** What one converted row does to the loop state. */
  function Append(fits: Tuple -> bool, s: Loader, t: Tuple): Loader {
    var b := s.batch + [t];
    if |b| >= BatchSize && AllFit(fits, b) then Loader(s.table + b, [], s.count + |b|)
    else Loader(s.table, b, s.count)
  }

  /** Appending a converted row keeps the invariant. */
  lemma AppendTracks(fits: Tuple -> bool, table0: seq<Tuple>, c: seq<Tuple>, s: Loader, t: Tuple)
    requires Tracks(fits, table0, c, s)
    ensures Tracks(fits, table0, c + [t], Append(fits, s, t))
  {
    var k := CommittedLength(GoodPrefix(fits, c));
    var b := s.batch + [t];
    PendStep(table0, c, s, t, k);
    if |b| >= BatchSize && AllFit(fits, b) {
      AcceptedThrough(fits, c, t, k);
      FullBatch(k, |c|);
      CommitStep(table0, c, s, t, k);
    } else {
      PendingKept(fits, c, t, k);
    }
  }

  /** Unless a full accepted batch is committed, the committed length does not move. */
  lemma PendingKept(fits: Tuple -> bool, c: seq<Tuple>, t: Tuple, k: nat)
    requires k == CommittedLength(GoodPrefix(fits, c)) && k <= |c|
    requires !(|c| + 1 - k >= BatchSize && AllFit(fits, (c + [t])[k..]))
    ensures CommittedLength(GoodPrefix(fits, c + [t])) == k
  {
    var g := GoodPrefix(fits, c);
    var c' := c + [t];
    GoodPrefixSnoc(fits, c, t);
    var g' := GoodPrefix(fits, c');
    if g' == |c'| {
      assert AllFit(fits, c'[k..]) by {
        assert forall i :: 0 <= i < |c'| - k ==> c'[k..][i] == c'[k + i];
      }
      SameBatch(k, g');
    }
  }

  /** When the pending rows and `t` all fit, the whole of `c + [t]` is accepted. */
  lemma AcceptedThrough(fits: Tuple -> bool, c: seq<Tuple>, t: Tuple, k: nat)
    requires k == CommittedLength(GoodPrefix(fits, c))
    requires AllFit(fits, (c + [t])[k..])
    ensures GoodPrefix(fits, c) == |c| && GoodPrefix(fits, c + [t]) == |c| + 1
  {
    BatchAllFits(fits, c, t, k);
    GoodPrefixSnoc(fits, c, t);
  }

  /** The sequence facts behind one step of the loop. */
  lemma SplitSnoc<T>(table0: seq<T>, c: seq<T>, t: T, k: nat)
    requires k <= |c|
    ensures (c + [t])[k..] == c[k..] + [t] && (c + [t])[..k] == c[..k]
    ensures (c + [t])[..|c| + 1] == c + [t] && (c + [t])[|c| + 1..] == []
    ensures table0 + c[..k] + (c[k..] + [t]) == table0 + (c + [t])
  {
    assert c[..k] + c[k..] == c;
  }

  /** When the pending rows and `t` all fit, nothing in `c` was rejected. */
  lemma BatchAllFits(fits: Tuple -> bool, c: seq<Tuple>, t: Tuple, k: nat)
    requires k == CommittedLength(GoodPrefix(fits, c))
    requires AllFit(fits, (c + [t])[k..])
    ensures GoodPrefix(fits, c) == |c| && fits(t)
  {
    var g := GoodPrefix(fits, c);
    var c' := c + [t];
    assert fits(c'[g]) by { assert c'[g] == c'[k..][g - k]; }
    assert t == c'[k..][|c| - k];
  }

  /** A pending batch that reaches the batch size ends on a whole-batch boundary. */
  lemma FullBatch(k: nat, n: nat)
    requires k == CommittedLength(n) && n + 1 >= k + BatchSize
    ensures CommittedLength(n + 1) == n + 1
  {
    assert n + 1 == k + BatchSize;
    NextBoundary(k);
    SameBatch(k + BatchSize, n + 1);
  }

  lemma NextBoundary(k: nat)
    requires k % BatchSize == 0
    ensures (k + BatchSize) % BatchSize == 0
  {
    var q := k / BatchSize;
    assert k + BatchSize == (q + 1) * BatchSize;
  }

  /** A length within the batch that starts at the whole-batch boundary `k` commits `k` rows. */
  lemma SameBatch(k: nat, g: nat)
    requires k % BatchSize == 0 && k <= g < k + BatchSize
    ensures CommittedLength(g) == k
  {
    var q := k / BatchSize;
    assert k == q * BatchSize;
    assert g == q * BatchSize + (g - k);
  }

  /** The rows of `rows[..i + 1]` that convert. */
  lemma ConvertedSnoc(kinds: seq<Kind>, rows: seq<seq<string>>, i: nat, r: Option<Tuple>)
    requires i < |rows| && r == ConvertRow(kinds, rows[i])
    ensures Converted(kinds, rows[..i + 1]) ==
      Converted(kinds, rows[..i]) + (if r.Some? then [r.value] else [])
  {
    assert rows[..i + 1][..i] == rows[..i];
  }

  /**
   * Appending one converted row to the batch, inserting and committing
   * the batch once it holds 1000 rows and the server accepts it.
   */
  method LoadRow(fits: Tuple -> bool, ghost table0: seq<Tuple>, ghost c: seq<Tuple>,
                 table: seq<Tuple>, batch: seq<Tuple>, count: nat, t: Tuple)
    returns (table': seq<Tuple>, batch': seq<Tuple>, count': nat)
    requires Tracks(fits, table0, c, Loader(table, batch, count))
    ensures Tracks(fits, table0, c + [t], Loader(table', batch', count'))
  {
    AppendTracks(fits, table0, c, Loader(table, batch, count), t);
    table', batch', count' := table, batch + [t], count;
    if |batch'| >= BatchSize && AllFit(fits, batch') {
      table' := table' + batch';
      count' := count' + |batch'|;
      batch' := [];
    }
  }

  /**
   * `import_csv_to_table`.  `file` is the lines the reader yields, the
   * header first (`None` when the file does not exist), and `broken` says
   * whether asking the reader for the next line then raises.  A missing
   * file, or one without even a header line (`next(file)` raises),
   * returns 0 and inserts nothing.  Otherwise, when the server accepts
   * every converted row and the reader ends cleanly, all of them are
   * inserted in file order and their number is returned; when it rejects
   * one, the whole batches before that row's batch stay committed,
   * nothing after them is inserted and 0 is returned, because the final
   * `executemany` of the pending rows fails.  A reader that raises after
   * the last line escapes the per-row handler: the batches committed
   * stay, the pending rows are not sent and 0 is returned.
   */
  method ImportCsvToTable(file: Option<seq<seq<string>>>, broken: bool, kinds: seq<Kind>, fits: Tuple -> bool,
                          table0: seq<Tuple>)
    returns (count: nat, table: seq<Tuple>)
    ensures file.None? || file == Some([]) ==> count == 0 && table == table0
    ensures file.Some? && file.value != [] ==>
      var c := Converted(kinds, file.value[1..]);
      var g := GoodPrefix(fits, c);
      && (g == |c| && !broken ==> table == table0 + c && count == |c|)
      && (g < |c| || broken ==> table == table0 + c[..CommittedLength(g)] && count == 0)
  {
    table := table0;
    count := 0;
    if file.None? || file.value == [] {
      return;
    }
    var data := file.value[1..];
    var batch: seq<Tuple> := [];
    ghost var c: seq<Tuple> := [];
    var i := 0;
    while i < |data|
      invariant i <= |data|
      invariant c == Converted(kinds, data[..i])
      invariant Tracks(fits, table0, c, Loader(table, batch, count))
    {
      var r := ProcessRow(kinds, data[i]);
      ConvertedSnoc(kinds, data, i, r);
      if r.Some? {
        table, batch, count := LoadRow(fits, table0, c, table, batch, count, r.value);
        c := c + [r.value];
      }
      i := i + 1;
    }
    assert data[..i] == data;
    if broken {
      return 0, table;
    }
    count, table := FlushRemainder(fits, table0, c, table, batch, count);
  }

  /**
   * The `executemany` of the rows still pending after the loop; when it
   * fails, the handler returns 0.
   */
  method FlushRemainder(fits: Tuple -> bool, ghost table0: seq<Tuple>, ghost c: seq<Tuple>,
                        table: seq<Tuple>, batch: seq<Tuple>, count: nat)
    returns (count': nat, table': seq<Tuple>)
    requires Tracks(fits, table0, c, Loader(table, batch, count))
    ensures GoodPrefix(fits, c) == |c| ==> table' == table0 + c && count' == |c|
    ensures GoodPrefix(fits, c) < |c| ==> table' == table0 + c[..CommittedLength(GoodPrefix(fits, c))] && count' == 0
  {
    var k := CommittedLength(GoodPrefix(fits, c));
    count', table' := count, table;
    if batch != [] {
      if AllFit(fits, batch) {
        assert c[..k] + c[k..] == c;
        table' := table + batch;
        count' := count + |batch|;
      } else {
        count' := 0;
      }
    } else {
      assert c[..k] == c;
    }
  }

  /** Every row that converts is among the converted rows. */
  lemma {:induction false} ConvertedHas(kinds: seq<Kind>, rows: seq<seq<string>>, j: nat)
    requires j < |rows| && ConvertRow(kinds, rows[j]).Some?
    ensures ConvertRow(kinds, rows[j]).value in Converted(kinds, rows)
  {
    var p := rows[..|rows| - 1];
    if j < |rows| - 1 {
      assert p[j] == rows[j];
      ConvertedHas(kinds, p, j);
    }
  }

  /** A tuple the server rejects ends the accepted prefix before the end. */
  lemma RejectedCutsPrefix(fits: Tuple -> bool, ts: seq<Tuple>, t: Tuple)
    requires t in ts && !fits(t)
    ensures GoodPrefix(fits, ts) < |ts|
  {
  }

  /** With every row accepted, the count is the number of rows that convert. */
  lemma CleanImportCount(kinds: seq<Kind>, fits: Tuple -> bool, rows: seq<seq<string>>)
    requires forall j :: 0 <= j < |rows| ==> ConvertRow(kinds, rows[j]).Some?
    requires forall t: Tuple :: fits(t)
    ensures GoodPrefix(fits, Converted(kinds, rows)) == |rows|
  {
    ConvertedBound(kinds, rows);
    GoodPrefixUnique(fits, Converted(kinds, rows), |rows|);
  }
}
