/**
 * `import_csv_file` of import_csv_direct.py: renders every CSV row as a
 * tuple of nine SQL literals and sends the tuples to the `mysql` client
 * as multi-row INSERT statements of at most 1000 tuples.
 *
 * The file is the rows the CSV reader yields (`None` when it does not
 * exist).  The client is an oracle: `ok(j)` says whether the `j`-th
 * statement sent succeeds.  `repr` is Python's `str` on floats.
 */
module CsvDirect {
  import opened Wrappers
  import opened PyNum
  import PyText
  import Batching
  import CsvTableImport
  import opened RowStream

  const BatchSize: nat := 1000

  /** Every row is rendered to this many literals. */
  const Width: nat := 9

  /** How a field is rendered once it is neither empty nor `null`. */
  datatype Position = IntegerPos | DecimalPos | PredictionPos | StringPos

  function PositionOf(i: nat): Position {
    if i == 0 || i == 2 || i == 3 || i == 6 then IntegerPos
    else if i == 5 || i == 7 then DecimalPos
    else if i == 8 then PredictionPos
    else StringPos
  }

  /** `value.replace("'", "''").replace('\\', '\\\\')`. */
  function Escape(v: string): string {
    PyText.ReplaceChar(PyText.ReplaceChar(v, '\'', "''"), '\\', "\\\\")
  }

  /** What the two replacements together make of one character. */
  function EscapeChar(c: char): string {
    if c == '\'' then "''" else if c == '\\' then "\\\\" else [c]
  }

  /** The two passes of `Escape` are one pass doubling both quotes and backslashes. */
  lemma EscapeOnePass(v: string)
    ensures Escape(v) == PyText.MapChars(v, EscapeChar)
  {
    var f := PyText.ReplaceFn('\'', "''");
    var g := PyText.ReplaceFn('\\', "\\\\");
    forall c
      ensures PyText.MapChars(f(c), g) == EscapeChar(c)
    {
      if c == '\'' {
        assert f(c) == "''";
        assert PyText.MapChars("'", g) == "'";
        assert PyText.MapChars("''", g) == "'" + PyText.MapChars("'", g);
      } else {
        assert f(c) == [c];
        assert PyText.MapChars([c], g) == g(c) + PyText.MapChars([], g);
      }
    }
    PyText.MapCharsCompose(v, f, g, EscapeChar);
  }

  /**
   * The character MySQL reads for the escape sequence `\c` inside a
   * quoted string ("String Literals" in the MySQL Reference Manual);
   * `\%` and `\_` keep their backslash and are handled by `ReadBody`.
   */
  function EscapedChar(c: char): char {
    if c == '0' then '\0'
    else if c == 'b' then '\U{8}'
    else if c == 'n' then '\n'
    else if c == 'r' then '\r'
    else if c == 't' then '\t'
    else if c == 'Z' then '\U{1A}'
    else c
  }

  function Prepend(p: string, r: Option<string>): Option<string> {
    match r
    case None => None
    case Some(s) => Some(p + s)
  }

  /**
   * How MySQL reads the text between the quotes of a single-quoted
   * literal: `''` is one quote, a backslash escapes the next character,
   * and a lone quote would have ended the literal (`None`).
   */
  function ReadBody(s: string): Option<string>
    decreases |s|
  {
    if s == [] then Some([])
    else if s[0] == '\'' then
      if |s| >= 2 && s[1] == '\'' then Prepend("'", ReadBody(s[2..])) else None
    else if s[0] == '\\' then
      if |s| < 2 then None
      else if s[1] == '%' || s[1] == '_' then Prepend("\\" + [s[1]], ReadBody(s[2..]))
      else Prepend([EscapedChar(s[1])], ReadBody(s[2..]))
    else Prepend([s[0]], ReadBody(s[1..]))
  }

  /** The string a single-quoted literal denotes, `None` when it is not one. */
  function ReadLiteral(lit: string): Option<string> {
    if |lit| >= 2 && lit[0] == '\'' && lit[|lit| - 1] == '\'' then ReadBody(lit[1..|lit| - 1]) else None
  }

  lemma ReadEscapedStep(c: char, rest: string)
    ensures ReadBody(EscapeChar(c) + rest) == Prepend([c], ReadBody(rest))
  {
    var s := EscapeChar(c) + rest;
    if c == '\'' || c == '\\' {
      assert s[2..] == rest;
    } else {
      assert s[1..] == rest;
    }
  }

  lemma {:induction false} ReadEscapedBody(v: string)
    ensures ReadBody(PyText.MapChars(v, EscapeChar)) == Some(v)
    decreases |v|
  {
    if v != [] {
      ReadEscapedBody(v[1..]);
      ReadEscapedStep(v[0], PyText.MapChars(v[1..], EscapeChar));
      assert [v[0]] + v[1..] == v;
    }
  }

  /** MySQL reads every quoted string literal back as the text it was rendered from. */
  lemma QuotedRoundTrip(v: string)
    ensures ReadLiteral("'" + Escape(v) + "'") == Some(v)
  {
    EscapeOnePass(v);
    ReadEscapedBody(v);
    var lit := "'" + Escape(v) + "'";
    assert lit[1..|lit| - 1] == Escape(v);
  }

  /** `value == '' or value.lower() == 'null'`. */
  predicate IsNullText(v: string) {
    v == "" || PyText.Lower(v) == "null"
  }

  /** The literal for the stripped text `v` of a field that is neither empty nor `null`. */
  function RenderValue(p: Position, v: string, repr: Num -> string): Option<string> {
    match p
    case IntegerPos =>
      (match IntOfFloatString(v)
       case IntOk(n) => Some(IntToString(n))
       case ValueErr => Some("NULL")
       case OverflowErr => None)
    case DecimalPos =>
      (match ParseFloat(v)
       case Some(x) => Some(repr(x))
       case None => Some("NULL"))
    case PredictionPos =>
      (match IntOfFloatString(v)
       case IntOk(n) => Some(IntToString(n))
       case ValueErr => Some("0")
       case OverflowErr => None)
    case StringPos => Some("'" + Escape(v) + "'")
  }

  /**
   * The literal for field `i`, whose raw text is `field`.  `None` is the
   * OverflowError of `int(float('inf'))`: the handlers around a cell
   * catch only ValueError and TypeError.
   */
  function RenderCell(i: nat, field: string, repr: Num -> string): Option<string> {
    var v := PyText.Strip(field);
    if IsNullText(v) then Some(if i == 8 then "0" else "NULL") else RenderValue(PositionOf(i), v, repr)
  }

  /** A cell renderer: position and raw field to literal, `None` when it raises. */
  type Renderer = (nat, string) -> Option<string>

  function CellRenderer(repr: Num -> string): Renderer {
    (i: nat, field: string) => RenderCell(i, field, repr)
  }

  /** Field `i` of a row, `''` past its end. */
  function Field(row: seq<string>, i: nat): string {
    if i < |row| then row[i] else ""
  }

  /** The literals of the first `m` fields, or `None` once one raises. */
  function RenderPrefix(render: Renderer, row: seq<string>, m: nat): Option<seq<string>> {
    if m == 0 then Some([])
    else
      match RenderPrefix(render, row, m - 1)
      case None => None
      case Some(p) =>
        match render(m - 1, Field(row, m - 1))
        case None => None
        case Some(c) => Some(p + [c])
  }

  /** A prefix renders exactly when each of its fields does, and then literal `k` is field `k`'s. */
  lemma {:induction false} RenderPrefixMeaning(render: Renderer, row: seq<string>, m: nat)
    ensures RenderPrefix(render, row, m).Some? <==> forall k :: 0 <= k < m ==> render(k, Field(row, k)).Some?
    ensures RenderPrefix(render, row, m).Some? ==>
      var vs := RenderPrefix(render, row, m).value;
      |vs| == m && forall k :: 0 <= k < m ==> vs[k] == render(k, Field(row, k)).value
  {
    if m > 0 {
      RenderPrefixMeaning(render, row, m - 1);
    }
  }

  function RenderValues(repr: Num -> string, row: seq<string>): Option<seq<string>> {
    RenderPrefix(CellRenderer(repr), row, Width)
  }

  /** `'(' + ', '.join(processed_values) + ')'`. */
  function TupleText(values: seq<string>): string {
    "(" + PyText.Join(values, ", ") + ")"
  }

  /** The tuple literal of one row, `None` when one of its fields raises. */
  function RenderRow(repr: Num -> string, row: seq<string>): Option<string> {
    match RenderValues(repr, row)
    case None => None
    case Some(vs) => Some(TupleText(vs))
  }

  /** The `for i in range(9)` loop over one row. */
  method RenderRowValues(repr: Num -> string, row: seq<string>) returns (r: Option<seq<string>>)
    ensures r == RenderValues(repr, row)
  {
    r := RenderFields(CellRenderer(repr), row, Width);
  }

  /** The tuple literal of one row, built once its nine literals are rendered. */
  method RenderTuple(repr: Num -> string, row: seq<string>) returns (t: Option<string>)
    ensures t == RowText(repr)(row)
  {
    var values := RenderRowValues(repr, row);
    if values.None? {
      return None;
    }
    t := Some(TupleText(values.value));
  }

  /** Renders fields `0 .. m - 1` in order, stopping at the first that raises. */
  method RenderFields(render: Renderer, row: seq<string>, m: nat) returns (r: Option<seq<string>>)
    ensures r == RenderPrefix(render, row, m)
  {
    var values: seq<string> := [];
    var i := 0;
    while i < m
      invariant 0 <= i <= m
      invariant RenderPrefix(render, row, i) == Some(values)
    {
      var value := if i < |row| then row[i] else "";
      var lit := render(i, value);
      if lit.None? {
        NoneStays(render, row, i + 1, m);
        return None;
      }
      values := values + [lit.value];
      i := i + 1;
    }
    return Some(values);
  }

  lemma {:induction false} NoneStays(render: Renderer, row: seq<string>, m: nat, n: nat)
    requires m <= n && RenderPrefix(render, row, m).None?
    ensures RenderPrefix(render, row, n).None?
    decreases n - m
  {
    if m < n {
      NoneStays(render, row, m + 1, n);
    }
  }

  /** Each row renders to nine literals, field `k` (or `''` when missing) giving literal `k`. */
  lemma RowMeaning(repr: Num -> string, row: seq<string>)
    ensures RenderValues(repr, row).Some? <==>
      forall k :: 0 <= k < Width ==> RenderCell(k, Field(row, k), repr).Some?
    ensures RenderValues(repr, row).Some? ==>
      var vs := RenderValues(repr, row).value;
      |vs| == Width && forall k :: 0 <= k < Width ==> vs[k] == RenderCell(k, Field(row, k), repr).value
  {
    RenderPrefixMeaning(CellRenderer(repr), row, Width);
  }

  /** Empty and `null` fields, in any case, are NULL, except the prediction, which is 0. */
  lemma NullCells(i: nat, field: string, repr: Num -> string)
    requires IsNullText(PyText.Strip(field))
    ensures RenderCell(i, field, repr) == Some(if i == 8 then "0" else "NULL")
  {
  }

  /** Integer and prediction positions render every `str(n)` as itself. */
  lemma IntegerCells(i: nat, n: int, repr: Num -> string)
    requires PositionOf(i) == IntegerPos || PositionOf(i) == PredictionPos
    ensures RenderCell(i, IntToString(n), repr) == Some(IntToString(n))
  {
    var s := IntToString(n);
    IntToStringParts(n);
    IntStringNotNull(n);
    ParseFloatOfIntString(n);
    assert RenderCell(i, s, repr) == RenderValue(PositionOf(i), s, repr);
  }

  lemma IntStringNotNull(n: int)
    ensures !IsNullText(IntToString(n))
  {
    var s := IntToString(n);
    var d := NatToString(if n < 0 then -n else n);
    assert s[0] == '-' || s[0] == d[0];
    assert PyText.IsDigit(d[0]);
    assert PyText.Lower(s)[0] != 'n';
  }

  /** A text that is no number: NULL at integer and decimal positions, 0 at the prediction. */
  lemma UnparsableCells(i: nat, field: string, repr: Num -> string)
    requires !IsNullText(PyText.Strip(field))
    requires ParseFloat(PyText.Strip(field)).None?
    ensures PositionOf(i) == IntegerPos || PositionOf(i) == DecimalPos ==> RenderCell(i, field, repr) == Some("NULL")
    ensures PositionOf(i) == PredictionPos ==> RenderCell(i, field, repr) == Some("0")
  {
    var v := PyText.Strip(field);
    assert RenderCell(i, field, repr) == RenderValue(PositionOf(i), v, repr);
    assert IntOfFloatString(v) == ValueErr;
  }

  /** At string positions the literal is quoted and reads back as the stripped field. */
  lemma StringCells(i: nat, field: string, repr: Num -> string)
    requires PositionOf(i) == StringPos
    requires !IsNullText(PyText.Strip(field))
    ensures RenderCell(i, field, repr).Some?
    ensures ReadLiteral(RenderCell(i, field, repr).value) == Some(PyText.Strip(field))
  {
    QuotedRoundTrip(PyText.Strip(field));
  }

  /** `inf` at an integer or prediction position raises, which ends the whole import. */
  lemma InfinityRaises(i: nat, repr: Num -> string)
    requires PositionOf(i) == IntegerPos || PositionOf(i) == PredictionPos
    ensures RenderCell(i, "inf", repr) == None
  {
    CsvTableImport.InfWord();
    assert ParseFloat("inf") == Some(Inf(false));
    assert IntOfFloatString("inf") == OverflowErr;
  }

  /** A row renderer: the tuple literal of a row, `None` when it raises. */
  type RowRenderer = seq<string> -> Option<string>

  function RowText(repr: Num -> string): RowRenderer {
    row => RenderRow(repr, row)
  }

  /** `f"INSERT INTO {table_name} ({', '.join(columns)}) VALUES " + ', '.join(batch_values) + ";"`. */
  function Statement(table: string, columns: seq<string>, batch: seq<string>): string {
    "INSERT INTO " + table + " (" + PyText.Join(columns, ", ") + ") VALUES " + PyText.Join(batch, ", ") + ";"
  }

  /**
   * What the import does with `n` rendered tuples: the count it returns
   * and the number of statements it sends.  A full batch is sent as soon
   * as its last tuple is appended, so a failing full statement ends the
   * import before anything after it is read; a raise ends it after the
   * full batches before it; otherwise the remainder is sent too.
   */
  function Expected(n: nat, raised: bool, ok: nat -> bool): (nat, nat) {
    var full := n / BatchSize;
    var good := Leading(ok, full);
    if good < full then (BatchSize * good, good + 1)
    else if raised || n % BatchSize == 0 then (BatchSize * full, full)
    else (if ok(full) then n else BatchSize * full, full + 1)
  }

  /** The slicing of `R` has one piece per full batch and one more for a remainder. */
  lemma {:induction false} SlicesCount(R: seq<string>)
    ensures |Batching.Slices(R, BatchSize)| == |R| / BatchSize + (if |R| % BatchSize == 0 then 0 else 1)
    decreases |R|
  {
    if |R| > BatchSize {
      Batching.SlicesUnfold(R, BatchSize);
      SlicesCount(R[BatchSize..]);
      assert |R[BatchSize..]| == |R| - BatchSize;
    }
  }

  /** The number of statements among the first `issued` that succeeded: all but a failing last one. */
  function Succeeded(issued: nat, ok: nat -> bool): nat {
    if issued > 0 && !ok(issued - 1) then issued - 1 else issued
  }

  /**
   * What `Expected` promises about the slices `bs` of `R`: the import
   * sends the first `issued` of them, every one before the last
   * succeeded, the count is the number of tuples in the statements that
   * succeeded, and it stops before the end only at a failing statement
   * or a raise.
   */
  lemma ExpectedMeaning(R: seq<string>, raised: bool, ok: nat -> bool)
    ensures var bs := Batching.Slices(R, BatchSize);
      var e := Expected(|R|, raised, ok);
      && e.1 <= |bs|
      && (forall j :: 0 <= j < e.1 - 1 ==> ok(j))
      && e.0 == |Batching.Flatten(bs[..Succeeded(e.1, ok)])|
      && (e.1 < |bs| ==> raised || (e.1 > 0 && !ok(e.1 - 1)))
  {
    var e := Expected(|R|, raised, ok);
    SlicesCount(R);
    ExpectedNumbers(|R|, raised, ok);
    Batching.SlicesPrefix(R, BatchSize, Succeeded(e.1, ok));
  }

  /** `ExpectedMeaning` on numbers: `n` tuples make `n / 1000` full slices and maybe one more. */
  lemma ExpectedNumbers(n: nat, raised: bool, ok: nat -> bool)
    ensures var e := Expected(n, raised, ok);
      var slices := n / BatchSize + (if n % BatchSize == 0 then 0 else 1);
      && e.1 <= slices
      && (forall j :: 0 <= j < e.1 - 1 ==> ok(j))
      && e.0 == Batching.Min(Succeeded(e.1, ok) * BatchSize, n)
      && (e.1 < slices ==> raised || (e.1 > 0 && !ok(e.1 - 1)))
  {
    var full := n / BatchSize;
    var e := Expected(n, raised, ok);
    var d := Succeeded(e.1, ok);
    assert BatchSize * full <= n < BatchSize * full + BatchSize;
    if d <= full {
      assert d * BatchSize <= full * BatchSize;
    } else {
      assert d == full + 1;
    }
  }

  /** When no row raises and every statement succeeds, every row is imported. */
  lemma CleanImportCount(R: seq<string>, ok: nat -> bool)
    requires forall j :: 0 <= j < |Batching.Slices(R, BatchSize)| ==> ok(j)
    ensures Expected(|R|, false, ok) == (|R|, |Batching.Slices(R, BatchSize)|)
  {
    SlicesCount(R);
    var full := |R| / BatchSize;
    LeadingAll(ok, full);
    assert BatchSize * full <= |R| < BatchSize * full + BatchSize;
  }

  lemma ExpectedFailed(n: nat, raised: bool, ok: nat -> bool, m: nat)
    requires n >= BatchSize * (m + 1)
    requires (forall j :: 0 <= j < m ==> ok(j)) && !ok(m)
    ensures Expected(n, raised, ok) == (BatchSize * m, m + 1)
  {
    assert n / BatchSize >= m + 1;
    LeadingStops(ok, n / BatchSize, m);
  }

  lemma ExpectedRaised(m: nat, b: nat, ok: nat -> bool)
    requires b < BatchSize && forall j :: 0 <= j < m ==> ok(j)
    ensures Expected(BatchSize * m + b, true, ok) == (BatchSize * m, m)
  {
    assert (BatchSize * m + b) / BatchSize == m;
    LeadingAll(ok, m);
  }

  lemma ExpectedFinished(m: nat, b: nat, ok: nat -> bool)
    requires b < BatchSize && forall j :: 0 <= j < m ==> ok(j)
    ensures Expected(BatchSize * m + b, false, ok) ==
      if b == 0 then (BatchSize * m, m)
      else (if ok(m) then BatchSize * m + b else BatchSize * m, m + 1)
  {
    assert (BatchSize * m + b) / BatchSize == m;
    assert (BatchSize * m + b) % BatchSize == b;
    LeadingAll(ok, m);
  }

  /** Batch `k` of the tuples `R`: `R[1000k : 1000k + 1000]`, the tuples of the `k`-th statement. */
  function BatchAt(R: seq<string>, k: nat): seq<string> {
    if BatchSize * k <= |R| then R[BatchSize * k .. Batching.Min(BatchSize * k + BatchSize, |R|)] else []
  }

  /** The number of batches of `n` tuples: the full ones and a partial remainder. */
  function BatchCount(n: nat): nat {
    n / BatchSize + (if n % BatchSize == 0 then 0 else 1)
  }

  /** Batch `k` is the `k`-th slice of `Batching.Slices`, and there are `BatchCount` of them. */
  lemma {:induction false} BatchesAreSlices(R: seq<string>, k: nat)
    requires k < |Batching.Slices(R, BatchSize)|
    ensures |Batching.Slices(R, BatchSize)| == BatchCount(|R|)
    ensures BatchAt(R, k) == Batching.Slices(R, BatchSize)[k]
    decreases |R|
  {
    SlicesCount(R);
    if |R| > BatchSize {
      Batching.SlicesUnfold(R, BatchSize);
      if k > 0 {
        BatchesAreSlices(R[BatchSize..], k - 1);
        BatchIndexBound(|R| - BatchSize, k - 1);
        ShiftBatch(R, k);
      }
    }
  }

  lemma BatchIndexBound(n: nat, k: nat)
    requires k < BatchCount(n)
    ensures BatchSize * k < n
  {
  }

  lemma ShiftBatch(R: seq<string>, k: nat)
    requires |R| > BatchSize && k >= 1 && BatchSize * (k - 1) < |R| - BatchSize
    ensures BatchAt(R[BatchSize..], k - 1) == BatchAt(R, k)
  {
    var a := BatchSize * (k - 1);
    assert BatchSize * k == a + BatchSize;
    var b := Batching.Min(a + BatchSize, |R| - BatchSize);
    assert Batching.Min(BatchSize * k + BatchSize, |R|) == b + BatchSize;
    assert a <= b <= |R| - BatchSize;
    assert forall j :: 0 <= j < b - a ==> R[BatchSize..][a..b][j] == R[a + BatchSize..b + BatchSize][j];
  }

  /** A batch that lies wholly inside a prefix is the same batch of the prefix. */
  lemma BatchAtPrefix(P: seq<string>, R: seq<string>, k: nat)
    requires P <= R && BatchSize * k + BatchSize <= |P|
    ensures BatchAt(R, k) == BatchAt(P, k)
  {
    assert R[..|P|] == P;
  }

  /**
   * The import of the tuples `R` (`raised` when a row raised after them)
   * returned `count` after sending `commands`: the statements of the
   * first batches of `R`, as many and with the count `Expected` says.
   */
  ghost predicate Imported(table: string, columns: seq<string>, ok: nat -> bool,
                           R: seq<string>, raised: bool, count: nat, commands: seq<string>) {
    var e := Expected(|R|, raised, ok);
    && count == e.0 && e.1 <= BatchCount(|R|) && |commands| == e.1
    && forall k :: 0 <= k < e.1 ==> commands[k] == Statement(table, columns, BatchAt(R, k))
  }

  /**
   * The loop state after the tuples `Ri`: every full batch has been sent
   * and committed, and `batch` holds the tuples since the last one.
   */
  ghost predicate Pending(table: string, columns: seq<string>, ok: nat -> bool,
                          Ri: seq<string>, batch: seq<string>, count: nat, commands: seq<string>) {
    var s := |commands|;
    && |Ri| == BatchSize * s + |batch| && |batch| < BatchSize && batch == Ri[BatchSize * s..]
    && count == BatchSize * s
    && (forall j :: 0 <= j < s ==> ok(j))
    && forall k :: 0 <= k < s ==> commands[k] == Statement(table, columns, BatchAt(Ri, k))
  }

  /** Appending a tuple keeps every batch that was already complete. */
  lemma BatchesKept(Ri: seq<string>, t: string, s: nat)
    requires BatchSize * s <= |Ri|
    ensures forall k :: 0 <= k < s ==> BatchAt(Ri + [t], k) == BatchAt(Ri, k)
  {
    forall k | 0 <= k < s
      ensures BatchAt(Ri + [t], k) == BatchAt(Ri, k)
    {
      assert BatchSize * k + BatchSize <= BatchSize * s;
      BatchAtPrefix(Ri, Ri + [t], k);
    }
  }

  /**
   * Appends one tuple and, once the batch is full, sends it: on success
   * the batch is committed and cleared, on failure the import stops.
   */
  method AddTuple(table: string, columns: seq<string>, ok: nat -> bool,
                  ghost Ri: seq<string>, batch: seq<string>, count: nat, commands: seq<string>, t: string)
    returns (batch2: seq<string>, count2: nat, commands2: seq<string>, failed: bool)
    requires Pending(table, columns, ok, Ri, batch, count, commands)
    ensures !failed ==> Pending(table, columns, ok, Ri + [t], batch2, count2, commands2)
    ensures failed ==> Stopped(table, columns, ok, Ri + [t], count2, commands2)
  {
    batch2, count2, commands2, failed := batch + [t], count, commands, false;
    if |batch2| < BatchSize {
      PendStep(table, columns, ok, Ri, batch, count, commands, t);
      return;
    }
    var m := |commands|;
    commands2 := commands + [Statement(table, columns, batch2)];
    if !ok(m) {
      FailStep(table, columns, ok, Ri, batch, count, commands, t);
      failed := true;
      return;
    }
    CommitStep(table, columns, ok, Ri, batch, count, commands, t);
    count2 := count + |batch2|;
    batch2 := [];
  }

  /**
   * The state after a full statement failed: `commands` were sent for
   * the batches of `Ri`, all but the last succeed, and `count` holds the
   * tuples of the successful ones.
   */
  ghost predicate Stopped(table: string, columns: seq<string>, ok: nat -> bool,
                          Ri: seq<string>, count: nat, commands: seq<string>) {
    && commands != [] && |Ri| == BatchSize * |commands|
    && (forall j :: 0 <= j < |commands| - 1 ==> ok(j)) && !ok(|commands| - 1)
    && count == BatchSize * (|commands| - 1)
    && forall k :: 0 <= k < |commands| ==> commands[k] == Statement(table, columns, BatchAt(Ri, k))
  }

  lemma PendStep(table: string, columns: seq<string>, ok: nat -> bool,
                 Ri: seq<string>, batch: seq<string>, count: nat, commands: seq<string>, t: string)
    requires Pending(table, columns, ok, Ri, batch, count, commands) && |batch| + 1 < BatchSize
    ensures Pending(table, columns, ok, Ri + [t], batch + [t], count, commands)
  {
    BatchesKept(Ri, t, |commands|);
    assert batch + [t] == (Ri + [t])[BatchSize * |commands|..];
  }

  /** The full batch `batch + [t]` is batch number `|commands|` of `Ri + [t]`, and the earlier ones are kept. */
  lemma FullBatch(table: string, columns: seq<string>, ok: nat -> bool,
                  Ri: seq<string>, batch: seq<string>, count: nat, commands: seq<string>, t: string)
    requires Pending(table, columns, ok, Ri, batch, count, commands) && |batch| + 1 == BatchSize
    ensures |Ri + [t]| == BatchSize * (|commands| + 1)
    ensures var commands2 := commands + [Statement(table, columns, batch + [t])];
      forall k :: 0 <= k < |commands2| ==> commands2[k] == Statement(table, columns, BatchAt(Ri + [t], k))
  {
    var s := |commands|;
    var commands2 := commands + [Statement(table, columns, batch + [t])];
    BatchesKept(Ri, t, s);
    assert batch + [t] == (Ri + [t])[BatchSize * s..];
    assert BatchAt(Ri + [t], s) == batch + [t];
    forall k | 0 <= k < |commands2|
      ensures commands2[k] == Statement(table, columns, BatchAt(Ri + [t], k))
    {
      if k < s {
        assert commands2[k] == commands[k];
      }
    }
  }

  /** A successful full statement is committed and the batch starts afresh. */
  lemma CommitStep(table: string, columns: seq<string>, ok: nat -> bool,
                   Ri: seq<string>, batch: seq<string>, count: nat, commands: seq<string>, t: string)
    requires Pending(table, columns, ok, Ri, batch, count, commands) && |batch| + 1 == BatchSize
    requires ok(|commands|)
    ensures Pending(table, columns, ok, Ri + [t], [], count + BatchSize,
                    commands + [Statement(table, columns, batch + [t])])
  {
    FullBatch(table, columns, ok, Ri, batch, count, commands, t);
    var s := |commands|;
    assert forall j :: 0 <= j < s + 1 ==> ok(j) by {
      forall j | 0 <= j < s + 1 ensures ok(j) { if j < s { } }
    }
  }

  /** A failing full statement stops the import. */
  lemma FailStep(table: string, columns: seq<string>, ok: nat -> bool,
                 Ri: seq<string>, batch: seq<string>, count: nat, commands: seq<string>, t: string)
    requires Pending(table, columns, ok, Ri, batch, count, commands) && |batch| + 1 == BatchSize
    requires !ok(|commands|)
    ensures Stopped(table, columns, ok, Ri + [t], count, commands + [Statement(table, columns, batch + [t])])
  {
    FullBatch(table, columns, ok, Ri, batch, count, commands, t);
  }

  /** A row raised after the tuples `Ri`: only the full batches before it were imported. */
  lemma RaisedExit(table: string, columns: seq<string>, ok: nat -> bool,
                   Ri: seq<string>, batch: seq<string>, count: nat, commands: seq<string>)
    requires Pending(table, columns, ok, Ri, batch, count, commands)
    ensures Imported(table, columns, ok, Ri, true, count, commands)
  {
    ExpectedRaised(|commands|, |batch|, ok);
    BatchCountOf(|commands|, |batch|);
  }

  /** A full statement failed after the tuples `Ri`, which the rest `R` extends. */
  lemma FailedExit(table: string, columns: seq<string>, ok: nat -> bool,
                   Ri: seq<string>, R: seq<string>, raised: bool, count: nat, commands: seq<string>)
    requires Stopped(table, columns, ok, Ri, count, commands) && Ri <= R
    ensures Imported(table, columns, ok, R, raised, count, commands)
  {
    var m := |commands| - 1;
    ExpectedFailed(|R|, raised, ok, m);
    assert |R| / BatchSize >= m + 1;
    forall k | 0 <= k < |commands|
      ensures BatchAt(R, k) == BatchAt(Ri, k)
    {
      assert BatchSize * k + BatchSize <= BatchSize * |commands|;
      BatchAtPrefix(Ri, R, k);
    }
  }

  lemma BatchCountOf(m: nat, b: nat)
    requires b < BatchSize
    ensures BatchCount(BatchSize * m + b) == if b == 0 then m else m + 1
  {
    assert (BatchSize * m + b) / BatchSize == m;
    assert (BatchSize * m + b) % BatchSize == b;
  }

  /** The remainder, if any, is sent after the last row; the count grows when it succeeds. */
  method SendRemainder(table: string, columns: seq<string>, ok: nat -> bool,
                       ghost Ri: seq<string>, batch: seq<string>, count: nat, commands: seq<string>)
    returns (count2: nat, commands2: seq<string>)
    requires Pending(table, columns, ok, Ri, batch, count, commands)
    ensures Imported(table, columns, ok, Ri, false, count2, commands2)
  {
    if batch == [] {
      NothingLeft(table, columns, ok, Ri, count, commands);
      return count, commands;
    }
    var m := |commands|;
    commands2 := commands + [Statement(table, columns, batch)];
    count2 := if ok(m) then count + |batch| else count;
    RemainderSent(table, columns, ok, Ri, batch, count, commands);
  }

  lemma NothingLeft(table: string, columns: seq<string>, ok: nat -> bool,
                    Ri: seq<string>, count: nat, commands: seq<string>)
    requires Pending(table, columns, ok, Ri, [], count, commands)
    ensures Imported(table, columns, ok, Ri, false, count, commands)
  {
    ExpectedFinished(|commands|, 0, ok);
    BatchCountOf(|commands|, 0);
  }

  lemma RemainderSent(table: string, columns: seq<string>, ok: nat -> bool,
                      Ri: seq<string>, batch: seq<string>, count: nat, commands: seq<string>)
    requires Pending(table, columns, ok, Ri, batch, count, commands) && batch != []
    ensures Imported(table, columns, ok, Ri, false,
                     if ok(|commands|) then count + |batch| else count,
                     commands + [Statement(table, columns, batch)])
  {
    var s := |commands|;
    ExpectedFinished(s, |batch|, ok);
    BatchCountOf(s, |batch|);
    RemainderBatch(table, columns, ok, Ri, batch, count, commands);
  }

  /** The remainder is the last batch of `Ri`. */
  lemma RemainderBatch(table: string, columns: seq<string>, ok: nat -> bool,
                       Ri: seq<string>, batch: seq<string>, count: nat, commands: seq<string>)
    requires Pending(table, columns, ok, Ri, batch, count, commands) && batch != []
    ensures var commands2 := commands + [Statement(table, columns, batch)];
      forall k :: 0 <= k < |commands2| ==> commands2[k] == Statement(table, columns, BatchAt(Ri, k))
  {
    var s := |commands|;
    var commands2 := commands + [Statement(table, columns, batch)];
    assert BatchAt(Ri, s) == batch;
    forall k | 0 <= k < s + 1
      ensures commands2[k] == Statement(table, columns, BatchAt(Ri, k))
    {
      if k < s {
        assert commands2[k] == commands[k];
      }
    }
  }

  /**
   * The end of the row loop: a reader that raises instead of ending drops
   * the pending batch, as a raising row does; otherwise it is sent.
   */
  method EndOfFile(table: string, columns: seq<string>, ok: nat -> bool, ghost Ri: seq<string>, broken: bool,
                   batch: seq<string>, count: nat, commands: seq<string>)
    returns (count2: nat, commands2: seq<string>)
    requires Pending(table, columns, ok, Ri, batch, count, commands)
    ensures Imported(table, columns, ok, Ri, broken, count2, commands2)
  {
    if broken {
      RaisedExit(table, columns, ok, Ri, batch, count, commands);
      return count, commands;
    }
    count2, commands2 := SendRemainder(table, columns, ok, Ri, batch, count, commands);
  }

  /**
   * `import_csv_file`.  `file` is the lines the reader yields and
   * `broken` says whether asking it for the next line then raises.  A
   * missing file, or one without a header line, imports nothing.
   * Otherwise the rows after the header are imported by `ImportRows`.
   */
  method ImportCsvFile(file: Option<seq<seq<string>>>, broken: bool, table: string, columns: seq<string>,
                       repr: Num -> string, ok: nat -> bool)
    returns (count: nat, commands: seq<string>)
    ensures file.None? || file == Some([]) ==> count == 0 && commands == []
    ensures file.Some? && file.value != [] ==>
      var r := Processed(RowText(repr), file.value[1..]);
      Imported(table, columns, ok, r.0, r.1 || broken, count, commands)
  {
    if file.None? || file.value == [] {
      return 0, [];
    }
    count, commands := ImportRows(file.value[1..], broken, table, columns, repr, ok);
  }

  /**
   * The row loop of `import_csv_file`: the data rows are imported as
   * `Imported` says of the tuples rendered before the first row that
   * raises; a reader that raises after the last line is handled like
   * such a row, so the pending batch is not sent.
   */
  method ImportRows(data: seq<seq<string>>, broken: bool, table: string, columns: seq<string>,
                    repr: Num -> string, ok: nat -> bool)
    returns (count: nat, commands: seq<string>)
    ensures var r := Processed(RowText(repr), data);
      Imported(table, columns, ok, r.0, r.1 || broken, count, commands)
  {
    var batch: seq<string> := [];
    count, commands := 0, [];
    var i := 0;
    assert data[..0] == [];
    assert Processed(RowText(repr), data[..0]) == ([], false);
    while i < |data|
      invariant 0 <= i <= |data|
      invariant !Processed(RowText(repr), data[..i]).1
      invariant Pending(table, columns, ok, Processed(RowText(repr), data[..i]).0, batch, count, commands)
    {
      ghost var Ri := Processed(RowText(repr), data[..i]).0;
      var tuple := RenderTuple(repr, data[i]);
      ProcessedSnoc(RowText(repr), data, i);
      ProcessedGrows(RowText(repr), data, i + 1);
      if tuple.None? {
        RaisedExit(table, columns, ok, Ri, batch, count, commands);
        return;
      }
      var failed;
      batch, count, commands, failed := AddTuple(table, columns, ok, Ri, batch, count, commands, tuple.value);
      if failed {
        FailedExit(table, columns, ok, Ri + [tuple.value], Processed(RowText(repr), data).0,
                   Processed(RowText(repr), data).1 || broken, count, commands);
        return;
      }
      i := i + 1;
    }
    assert data[..i] == data;
    count, commands := EndOfFile(table, columns, ok, Processed(RowText(repr), data).0, broken, batch, count, commands);
  }
}
