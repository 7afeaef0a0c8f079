/**
 * import_proxy_sel_unified.py: loads a parquet frame into `account_voted`
 * or `account_unvoted` of the proxy_sel database.  Missing expected
 * columns are filled from a fixed list of name variants, the frame is
 * projected on the expected columns, each column is cleaned by its kind,
 * rows without an account hash are dropped, and the table is replaced in
 * committed batches of 1000.
 *
 * A frame is `Frames.Frame`; `str()` of a cell is the parameter `render`;
 * the outcome of each batch's `executemany`/commit is the oracle `ok`.
 */
module ProxySelUnified {
  import opened Wrappers
  import opened PyText
  import opened PyNum
  import opened Frames
  import opened RowStream
  import Batching
  import ProposalsPredictions
  import SdsCalibrated

  /** `expected_columns`, in insertion order. */
  const ExpectedColumns: seq<string> := SdsCalibrated.RequiredColumns

  /** `column_variations`: the alternative names tried, in order, for a missing column. */
  const ColumnVariations: map<string, seq<string>> := map[
    "score_model2" := ["score_model1", "score", "score_model"],
    "prediction_model2" := ["prediction_model1", "prediction", "prediction_model"],
    "Target_encoded" := ["true_outcome", "target", "outcome", "Target"]]

  /** The columns converted with `round().fillna(0).astype(int)`. */
  const IntColumns: seq<string> := ["proposal_master_skey", "director_master_skey", "rank_of_shareholding",
                                    "shares_summable", "Target_encoded"]

  /** The columns converted with `pd.to_numeric(errors='coerce')` only. */
  const FloatColumns: seq<string> := ["score_model2", "prediction_model2"]

  const HashColumn: string := "account_hash_key"

  const BatchSize: nat := 1000

  /** The variants of a column in a variation table; none for a column it does not list. */
  function VariantsIn(table: map<string, seq<string>>): string -> seq<string> {
    col => if col in table then table[col] else []
  }

  const Variations: string -> seq<string> := VariantsIn(ColumnVariations)

  /** No name is a variant of two columns. */
  ghost predicate Disjoint(vars: string -> seq<string>) {
    forall e1, e2, v :: v in vars(e1) && v in vars(e2) ==> e1 == e2
  }

  lemma VariationsDisjoint()
    ensures Disjoint(Variations)
  {
  }

  /** The first of `variants` that is a column of the frame. */
  function FirstPresent(variants: seq<string>, cols: seq<string>): (r: Option<string>)
    ensures r.None? <==> forall k :: 0 <= k < |variants| ==> variants[k] !in cols
    ensures r.Some? ==> exists k :: (0 <= k < |variants| && variants[k] == r.value && r.value in cols &&
      forall j :: 0 <= j < k ==> variants[j] !in cols)
    decreases |variants|
  {
    if variants == [] then None
    else if variants[0] in cols then Some(variants[0])
    else
      var r := FirstPresent(variants[1..], cols);
      assert forall k :: 1 <= k < |variants| ==> variants[k] == variants[1..][k - 1];
      r
  }

  /** The inner `for variant in ...: if variant in df.columns: ...; break`. */
  method FirstVariant(variants: seq<string>, cols: seq<string>) returns (found: Option<string>)
    ensures found == FirstPresent(variants, cols)
  {
    var j := 0;
    while j < |variants|
      invariant j <= |variants|
      invariant FirstPresent(variants, cols) == FirstPresent(variants[j..], cols)
    {
      if variants[j] in cols {
        return Some(variants[j]);
      }
      assert variants[j..][1..] == variants[j + 1..];
      j := j + 1;
    }
    return None;
  }

  /**
   * The map built by `for name in names: ... column_mapping[found] = name`
   * where `first(name)` is the column found for `name`, if any: each such
   * column is sent to a name, a later name overwriting an earlier one.
   */
  function Assign(first: string -> Option<string>, names: seq<string>): map<string, string>
    decreases |names|
  {
    if names == [] then map[]
    else
      var m := Assign(first, names[..|names| - 1]);
      match first(names[|names| - 1])
      case None => m
      case Some(a) => m[a := names[|names| - 1]]
  }

  /** A column is a key of the map exactly when it is found for some name. */
  lemma {:induction false} AssignKeys(first: string -> Option<string>, names: seq<string>, a: string)
    ensures a in Assign(first, names) <==> exists k :: 0 <= k < |names| && first(names[k]) == Some(a)
    decreases |names|
  {
    if names != [] {
      var n := |names| - 1;
      var front := names[..n];
      AssignKeys(first, front, a);
      var m := Assign(first, front);
      var fp := first(names[n]);
      assert Assign(first, names) == if fp.Some? then m[fp.value := names[n]] else m;
      if fp == Some(a) {
        assert a in Assign(first, names) && first(names[n]) == Some(a);
      } else if a in m {
        var k :| 0 <= k < n && first(front[k]) == Some(a);
        assert front[k] == names[k];
        assert a in Assign(first, names);
      } else {
        assert a !in Assign(first, names);
        forall k | 0 <= k < |names|
          ensures first(names[k]) != Some(a)
        {
          if k < n {
            assert front[k] == names[k];
          }
        }
      }
    }
  }

  /**
   * The column found for `names[k]` is sent to `names[k]` when no later
   * name that finds the same column differs from it; in particular the
   * last name to find a column wins.
   */
  lemma {:induction false} AssignOnly(first: string -> Option<string>, names: seq<string>, k: nat)
    requires k < |names| && first(names[k]).Some?
    requires forall j :: k < j < |names| && first(names[j]) == first(names[k]) ==> names[j] == names[k]
    ensures first(names[k]).value in Assign(first, names)
    ensures Assign(first, names)[first(names[k]).value] == names[k]
    decreases |names|
  {
    var n := |names| - 1;
    var front := names[..n];
    var a := first(names[k]).value;
    var m := Assign(first, front);
    var last := first(names[n]);
    assert Assign(first, names) == if last.Some? then m[last.value := names[n]] else m;
    if k < n {
      assert front[k] == names[k];
      forall j | k < j < |front| && first(front[j]) == first(front[k])
        ensures front[j] == front[k]
      {
        assert front[j] == names[j];
      }
      AssignOnly(first, front, k);
    }
  }

  /** One more name: its column, if found, is sent to it. */
  lemma AssignStep(first: string -> Option<string>, names: seq<string>, i: nat)
    requires i < |names|
    ensures Assign(first, names[..i + 1]) ==
      if first(names[i]).Some? then Assign(first, names[..i])[first(names[i]).value := names[i]]
      else Assign(first, names[..i])
  {
    assert names[..i + 1][..i] == names[..i];
  }

  /** The lookup of the inner loop: the first variant of a column that the frame has. */
  function FirstVariantOf(vars: string -> seq<string>, cols: seq<string>): string -> Option<string> {
    e => FirstPresent(vars(e), cols)
  }

  /** `column_mapping` after the missing columns `missing` were looked up. */
  function MappingOf(vars: string -> seq<string>, missing: seq<string>, cols: seq<string>): map<string, string> {
    Assign(FirstVariantOf(vars, cols), missing)
  }

  /** With disjoint variant lists, the first present variant of a missing column is sent to that column. */
  lemma MappingValues(vars: string -> seq<string>, missing: seq<string>, cols: seq<string>, k: nat)
    requires Disjoint(vars)
    requires k < |missing| && FirstPresent(vars(missing[k]), cols).Some?
    ensures FirstPresent(vars(missing[k]), cols).value in MappingOf(vars, missing, cols)
    ensures MappingOf(vars, missing, cols)[FirstPresent(vars(missing[k]), cols).value] == missing[k]
  {
    var first := FirstVariantOf(vars, cols);
    var v := FirstPresent(vars(missing[k]), cols).value;
    forall j | k < j < |missing| && first(missing[j]) == first(missing[k])
      ensures missing[j] == missing[k]
    {
      assert v in vars(missing[k]) && v in vars(missing[j]);
    }
    AssignOnly(first, missing, k);
  }

  /** `if missing_col in column_variations:` followed by the variant loop. */
  method LookupVariant(table: map<string, seq<string>>, e: string, cols: seq<string>) returns (found: Option<string>)
    ensures found == FirstPresent(VariantsIn(table)(e), cols)
  {
    found := None;
    if e in table {
      found := FirstVariant(table[e], cols);
    }
  }

  /**
   * The loop of `validate_and_clean_data` that fills `column_mapping`,
   * over the variation table `table` and the expected columns `expected`.
   */
  method VariantMapping(table: map<string, seq<string>>, expected: seq<string>, cols: seq<string>)
    returns (mapping: map<string, string>)
    ensures mapping == MappingOf(VariantsIn(table), KeepAbsent(expected, cols), cols)
  {
    var missing := KeepAbsent(expected, cols);
    ghost var first := FirstVariantOf(VariantsIn(table), cols);
    mapping := map[];
    var i := 0;
    while i < |missing|
      invariant i <= |missing|
      invariant mapping == Assign(first, missing[..i])
    {
      var e := missing[i];
      var found := LookupVariant(table, e, cols);
      AssignStep(first, missing, i);
      if found.Some? {
        mapping := mapping[found.value := e];
      }
      i := i + 1;
    }
    assert missing[..i] == missing;
  }

  /** `df.rename(columns=mapping)`: the column names only; the rows are untouched. */
  function Rename(cols: seq<string>, mapping: map<string, string>): (r: seq<string>)
    ensures |r| == |cols|
    ensures forall k :: 0 <= k < |cols| ==> r[k] == (if cols[k] in mapping then mapping[cols[k]] else cols[k])
  {
    seq(|cols|, k requires 0 <= k < |cols| => if cols[k] in mapping then mapping[cols[k]] else cols[k])
  }

  /** The column names after the variant step: unchanged unless an expected column is missing. */
  function Resolved(cols: seq<string>): seq<string> {
    ResolvedBy(Variations, ExpectedColumns, cols)
  }

  function ResolvedBy(vars: string -> seq<string>, expected: seq<string>, cols: seq<string>): (r: seq<string>)
    ensures |r| == |cols|
  {
    var missing := KeepAbsent(expected, cols);
    if missing == [] then cols else Rename(cols, MappingOf(vars, missing, cols))
  }

  /** No variant is an expected name. */
  ghost predicate Apart(vars: string -> seq<string>, expected: seq<string>) {
    forall e, v :: v in vars(e) ==> v !in expected
  }

  lemma VariationsApart()
    ensures Apart(Variations, ExpectedColumns)
  {
    forall e, v | v in Variations(e)
      ensures v !in ExpectedColumns
    {
      assert e in ColumnVariations && v in ColumnVariations[e];
      NotExpected(v, ColumnVariations[e]);
    }
  }

  /** None of the listed variants is an expected column. */
  lemma NotExpected(v: string, variants: seq<string>)
    requires v in variants
    requires variants == ["score_model1", "score", "score_model"] ||
             variants == ["prediction_model1", "prediction", "prediction_model"] ||
             variants == ["true_outcome", "target", "outcome", "Target"]
    ensures v !in ExpectedColumns
  {
  }

  lemma {:induction false} ResolvedByMeaning(vars: string -> seq<string>, expected: seq<string>, cols: seq<string>, e: string)
    requires Disjoint(vars) && Apart(vars, expected) && e in expected
    ensures |ResolvedBy(vars, expected, cols)| == |cols|
    ensures KeepAbsent(expected, cols) == [] ==> ResolvedBy(vars, expected, cols) == cols
    ensures e in ResolvedBy(vars, expected, cols) <==> e in cols || FirstPresent(vars(e), cols).Some?
  {
    var missing := KeepAbsent(expected, cols);
    if missing != [] {
      var m := MappingOf(vars, missing, cols);
      var r := Rename(cols, m);
      if e in cols {
        var k :| 0 <= k < |cols| && cols[k] == e;
        AssignKeys(FirstVariantOf(vars, cols), missing, e);
        assert r[k] == e;
      } else if FirstPresent(vars(e), cols).Some? {
        var v := FirstPresent(vars(e), cols).value;
        assert e in missing;
        var j :| 0 <= j < |missing| && missing[j] == e;
        MappingValues(vars, missing, cols, j);
        var k :| 0 <= k < |cols| && cols[k] == v;
        assert r[k] == e;
      } else {
        forall k | 0 <= k < |r|
          ensures r[k] != e
        {
          if cols[k] in m {
            AssignKeys(FirstVariantOf(vars, cols), missing, cols[k]);
            var j :| 0 <= j < |missing| && FirstPresent(vars(missing[j]), cols) == Some(cols[k]);
            MappingValues(vars, missing, cols, j);
          }
        }
      }
    }
  }

  /**
   * An expected column is there after the variant step exactly when it
   * was there before, or one of its variants was; nothing changes when no
   * expected column is missing.
   */
  lemma ResolvedMeaning(cols: seq<string>, e: string)
    requires e in ExpectedColumns
    ensures |Resolved(cols)| == |cols|
    ensures KeepAbsent(ExpectedColumns, cols) == [] ==> Resolved(cols) == cols
    ensures e in Resolved(cols) <==> e in cols || FirstPresent(Variations(e), cols).Some?
  {
    VariationsDisjoint();
    VariationsApart();
    ResolvedByMeaning(Variations, ExpectedColumns, cols, e);
  }

  /** `pd.to_numeric(x, errors='coerce')`: text that is not a number becomes NaN. */
  function ToNumeric(c: Cell): (n: Num)
    ensures c.Null? ==> n.NaN?
    ensures c.Number? ==> n == c.n
  {
    match c
    case Null => NaN
    case Number(n) => n
    case Text(s) => match ParseFloat(s) case None => NaN case Some(n) => n
  }

  /** `round()` of a finite float: the nearest integer, ties to the even one. */
  function RoundHalfEven(mant: int, exp: int): (r: int)
    ensures exp >= 0 ==> r == mant * Pow10(exp)
    ensures exp < 0 ==> 2 * (mant - r * Pow10(-exp)) <= Pow10(-exp) && 2 * (r * Pow10(-exp) - mant) <= Pow10(-exp)
    ensures exp < 0 && 2 * (mant - r * Pow10(-exp)) == Pow10(-exp) ==> r % 2 == 0
    ensures exp < 0 && 2 * (r * Pow10(-exp) - mant) == Pow10(-exp) ==> r % 2 == 0
  {
    if exp >= 0 then mant * Pow10(exp) else RoundDiv(mant, Pow10(-exp))
  }

  /** `m / d` rounded to the nearest integer, ties to the even one. */
  function RoundDiv(m: int, d: int): (r: int)
    requires d > 0
    ensures 2 * (m - r * d) <= d && 2 * (r * d - m) <= d
    ensures 2 * (m - r * d) == d ==> r % 2 == 0
    ensures 2 * (r * d - m) == d ==> r % 2 == 0
  {
    var q := m / d;
    var rem := m % d;
    assert m == q * d + rem && 0 <= rem < d;
    assert (q + 1) * d == q * d + d;
    if 2 * rem < d then q
    else if 2 * rem > d then q + 1
    else if q % 2 == 0 then q else q + 1
  }

  /**
   * `pd.to_numeric(...).round().fillna(0).astype(int)` of one cell: missing
   * and non-numeric values become 0; `None` is the error `astype(int)`
   * raises on an infinite value.
   */
  function CleanInt(c: Cell): (r: Option<int>)
    ensures r.None? <==> ToNumeric(c).Inf?
    ensures ToNumeric(c).NaN? ==> r == Some(0)
    ensures ToNumeric(c).Finite? ==> r == Some(RoundHalfEven(ToNumeric(c).mant, ToNumeric(c).exp))
  {
    match ToNumeric(c)
    case NaN => Some(0)
    case Inf(_) => None
    case Finite(m, e) => Some(RoundHalfEven(m, e))
  }

  /** `astype(str).replace('nan', '').replace('None', '')`: only the two exact words are blanked. */
  function CleanText(render: Cell -> string, c: Cell): (r: string)
    ensures r != "nan" && r != "None"
    ensures render(c) != "nan" && render(c) != "None" ==> r == render(c)
    ensures render(c) == "nan" || render(c) == "None" ==> r == ""
  {
    var s := render(c);
    if s == "nan" || s == "None" then "" else s
  }

  /** How `validate_and_clean_data` treats a column, by its name. */
  datatype ColumnKind = IntColumn | FloatColumn | TextColumn

  function KindOf(name: string): ColumnKind {
    if name in IntColumns then IntColumn else if name in FloatColumns then FloatColumn else TextColumn
  }

  /**
   * The cleaned value of one cell as the INSERT receives it: an integer,
   * a float or NULL for NaN, or text.  `None` is the error of an infinite
   * integer cell.
   */
  function CleanCell(render: Cell -> string, name: string, c: Cell): (v: Option<Value>)
    ensures KindOf(name) == IntColumn ==> (v.Some? <==> CleanInt(c).Some?) && (v.Some? ==> v.value == VInt(CleanInt(c).value))
    ensures KindOf(name) == FloatColumn ==> v == Some(if ToNumeric(c).NaN? then VNull else VNum(ToNumeric(c)))
    ensures KindOf(name) == TextColumn ==> v == Some(VCell(Text(CleanText(render, c))))
  {
    match KindOf(name)
    case IntColumn => (match CleanInt(c) case None => None case Some(i) => Some(VInt(i)))
    case FloatColumn => Some(if ToNumeric(c).NaN? then VNull else VNum(ToNumeric(c)))
    case TextColumn => Some(VCell(Text(CleanText(render, c))))
  }

  predicate RowCleans(render: Cell -> string, cols: seq<string>, row: seq<Cell>)
    requires |row| == |cols|
  {
    forall k :: 0 <= k < |cols| ==> CleanCell(render, cols[k], row[k]).Some?
  }

  function CleanRow(render: Cell -> string, cols: seq<string>, row: seq<Cell>): (r: seq<Value>)
    requires |row| == |cols| && RowCleans(render, cols, row)
    ensures |r| == |cols|
    ensures forall k :: 0 <= k < |cols| ==> Some(r[k]) == CleanCell(render, cols[k], row[k])
  {
    seq(|cols|, k requires 0 <= k < |cols| => CleanCell(render, cols[k], row[k]).value)
  }

  /** `df['account_hash_key'].str.strip() != ''` on a cleaned row whose hash sits at position `h`. */
  function HasHash(h: nat): seq<Value> -> bool {
    (r: seq<Value>) => h < |r| && r[h].VCell? && r[h].c.Text? && Strip(r[h].c.s) != ""
  }

  /** The frame after the variant step and `df[available_columns]`. */
  function Selected(f: Frame): (g: Frame)
    requires WellFormed(f)
    ensures WellFormed(g) && g.columns == KeepPresent(ExpectedColumns, Resolved(f.columns)) && |g.rows| == |f.rows|
  {
    SelectedBy(Variations, ExpectedColumns, f)
  }

  function SelectedBy(vars: string -> seq<string>, expected: seq<string>, f: Frame): (g: Frame)
    requires WellFormed(f)
    ensures WellFormed(g) && g.columns == KeepPresent(expected, ResolvedBy(vars, expected, f.columns)) && |g.rows| == |f.rows|
  {
    Project(expected, Frame(ResolvedBy(vars, expected, f.columns), f.rows))
  }

  /** `df[[c for c in expected if c in df.columns]]`: the expected columns present, in expected order. */
  function Project(expected: seq<string>, f: Frame): (g: Frame)
    requires WellFormed(f)
    ensures WellFormed(g) && g.columns == KeepPresent(expected, f.columns) && |g.rows| == |f.rows|
  {
    var names := KeepPresent(expected, f.columns);
    assert forall k :: 0 <= k < |names| ==> names[k] in f.columns;
    Select(f, names).value
  }

  /**
   * `validate_and_clean_data`: the cleaned rows with a hash, in frame
   * order.  `None` is an exception: no `account_hash_key` column at all,
   * or an infinite value in an integer column.
   */
  function Cleaned(render: Cell -> string, f: Frame): (r: Option<seq<seq<Value>>>)
    requires WellFormed(f)
  {
    CleanFrame(render, Selected(f))
  }

  /** The cleaning of the selected frame `g`. */
  function CleanFrame(render: Cell -> string, g: Frame): (r: Option<seq<seq<Value>>>)
    requires WellFormed(g)
  {
    if HashColumn !in g.columns then None
    else if exists i :: 0 <= i < |g.rows| && !RowCleans(render, g.columns, g.rows[i]) then None
    else
      Some(ProposalsPredictions.Filter(
        seq(|g.rows|, i requires 0 <= i < |g.rows| => CleanRow(render, g.columns, g.rows[i])),
        HasHash(ColumnIndex(g.columns, HashColumn))))
  }

  /**
   * The shape of a cleaned row over the selected columns `cols`: one
   * value per column, an integer (never NULL) in each integer column and
   * text other than `nan`/`None` in each text column.
   */
  predicate CleanShape(cols: seq<string>, x: seq<Value>) {
    && |x| == |cols|
    && (forall k :: 0 <= k < |x| && KindOf(cols[k]) == IntColumn ==> x[k].VInt?)
    && (forall k :: 0 <= k < |x| && KindOf(cols[k]) == TextColumn ==>
          x[k].VCell? && x[k].c.Text? && x[k].c.s != "nan" && x[k].c.s != "None")
  }

  /** A row cleans exactly when none of its integer cells is infinite. */
  lemma RowCleansMeaning(render: Cell -> string, cols: seq<string>, row: seq<Cell>)
    requires |row| == |cols|
    ensures RowCleans(render, cols, row) <==>
      forall k :: 0 <= k < |cols| && KindOf(cols[k]) == IntColumn ==> !ToNumeric(row[k]).Inf?
  {
    forall k | 0 <= k < |cols|
      ensures CleanCell(render, cols[k], row[k]).Some? <==> (KindOf(cols[k]) == IntColumn ==> !ToNumeric(row[k]).Inf?)
    {
    }
  }

  /**
   * The cleaning fails exactly when the hash column is absent or an
   * integer column holds an infinity.
   */
  lemma CleanFrameFails(render: Cell -> string, g: Frame)
    requires WellFormed(g)
    ensures CleanFrame(render, g).None? <==>
      || HashColumn !in g.columns
      || exists i, k :: 0 <= i < |g.rows| && 0 <= k < |g.columns| &&
           KindOf(g.columns[k]) == IntColumn && ToNumeric(g.rows[i][k]).Inf?
  {
    forall i | 0 <= i < |g.rows| {
      RowCleansMeaning(render, g.columns, g.rows[i]);
    }
  }

  /**
   * Every row that survives the cleaning has the clean shape and a
   * non-blank hash, and there are no more of them than rows in the frame.
   */
  lemma CleanFrameRows(render: Cell -> string, g: Frame)
    requires WellFormed(g) && CleanFrame(render, g).Some?
    ensures |CleanFrame(render, g).value| <= |g.rows|
    ensures forall x: seq<Value> :: x in CleanFrame(render, g).value ==>
      CleanShape(g.columns, x) && HasHash(ColumnIndex(g.columns, HashColumn))(x)
  {
    var all := seq(|g.rows|, i requires 0 <= i < |g.rows| => CleanRow(render, g.columns, g.rows[i]));
    var keep := HasHash(ColumnIndex(g.columns, HashColumn));
    var r := ProposalsPredictions.Filter(all, keep);
    assert CleanFrame(render, g).value == r;
    ProposalsPredictions.FilterShorter(all, keep);
    forall x: seq<Value> | x in r
      ensures CleanShape(g.columns, x) && keep(x)
    {
      var i :| 0 <= i < |all| && all[i] == x;
      CleanRowShape(render, g.columns, g.rows[i]);
    }
  }

  lemma CleanRowShape(render: Cell -> string, cols: seq<string>, row: seq<Cell>)
    requires |row| == |cols| && RowCleans(render, cols, row)
    ensures CleanShape(cols, CleanRow(render, cols, row))
  {
  }

  /**
   * `validate_and_clean_data` with its mapping loop, over the variation
   * table `table` and the expected columns `expected`.
   */
  method ValidateAndClean(table: map<string, seq<string>>, expected: seq<string>, render: Cell -> string, f: Frame)
    returns (r: Option<seq<seq<Value>>>)
    requires WellFormed(f)
    ensures r == CleanFrame(render, SelectedBy(VariantsIn(table), expected, f))
  {
    var cols := f.columns;
    var missing := KeepAbsent(expected, cols);
    if missing != [] {
      var mapping := VariantMapping(table, expected, cols);
      cols := Rename(cols, mapping);
    }
    assert cols == ResolvedBy(VariantsIn(table), expected, f.columns);
    var g, available, _ := SelectExisting(Frame(cols, f.rows), expected);
    r := CleanFrame(render, g);
  }

  /** The number of `range(0, len(df), 1000)` batches. */
  function NumBatches(n: nat): (b: nat)
    ensures b * BatchSize >= n && (b == 0 || (b - 1) * BatchSize < n)
  {
    (n + BatchSize - 1) / BatchSize
  }

  /** The batches committed by the loop are exactly the leading successful ones. */
  lemma CommittedBatches(n: nat, ok: nat -> bool, done: nat)
    requires forall j :: 0 <= j < done ==> ok(j)
    requires done * BatchSize >= n || !ok(done)
    requires done == 0 || (done - 1) * BatchSize < n
    ensures done == Leading(ok, NumBatches(n))
  {
    var b := NumBatches(n);
    if done * BatchSize >= n {
      assert done == b;
      LeadingAll(ok, b);
    } else {
      assert done < b;
      LeadingStops(ok, b, done);
    }
  }

  /**
   * What the batch part of the import leaves: nothing happens and 0 is
   * reported for a failed cleaning, an empty cleaned frame or a failed
   * DELETE; otherwise the table holds the cleaned rows' leading committed
   * batches, and the report is the number of rows when every batch
   * committed and 0 as soon as one failed.
   */
  ghost predicate Loaded(rows: Option<seq<seq<Value>>>, deleteOk: bool, ok: nat -> bool,
                         table0: seq<seq<Value>>, table: seq<seq<Value>>, count: nat)
  {
    if rows.None? || rows.value == [] || !deleteOk then table == table0 && count == 0
    else
      var n := |rows.value|;
      var d := Leading(ok, NumBatches(n));
      && table == rows.value[..Batching.Min(d * BatchSize, n)]
      && count == (if d == NumBatches(n) then n else 0)
  }

  /**
   * The DELETE and the batch loop of `import_parquet_to_table`: `ok(j)`
   * is the outcome of batch `j`'s `executemany` and commit.
   */
  method LoadRows(rows: Option<seq<seq<Value>>>, deleteOk: bool, ok: nat -> bool, table0: seq<seq<Value>>)
    returns (table: seq<seq<Value>>, count: nat)
    ensures Loaded(rows, deleteOk, ok, table0, table, count)
  {
    if rows.None? || rows.value == [] || !deleteOk {
      return table0, 0;
    }
    var committed, done := Batching.CommitSlices(rows.value, BatchSize, ok);
    CommittedBatches(|rows.value|, ok, done);
    table := committed;
    if done * BatchSize >= |rows.value| {
      count := |rows.value|;
    } else {
      count := 0;
    }
  }

  /**
   * A positive report means every cleaned row was inserted, in order; it
   * is positive exactly when every batch committed; whatever happens, the
   * table holds a prefix of the cleaned rows once the DELETE went through.
   */
  lemma LoadedMeaning(rows: Option<seq<seq<Value>>>, deleteOk: bool, ok: nat -> bool,
                      table0: seq<seq<Value>>, table: seq<seq<Value>>, count: nat)
    requires Loaded(rows, deleteOk, ok, table0, table, count)
    ensures count == 0 || (rows.Some? && count == |rows.value| && table == rows.value)
    ensures rows.Some? && rows.value != [] && deleteOk ==>
      && table <= rows.value
      && (count > 0 <==> forall j :: 0 <= j < NumBatches(|rows.value|) ==> ok(j))
  {
    if rows.Some? && rows.value != [] && deleteOk {
      var n := |rows.value|;
      if forall j :: 0 <= j < NumBatches(n) ==> ok(j) {
        LeadingAll(ok, NumBatches(n));
      }
    }
  }

  /**
   * `import_parquet_to_table`.  `frame` is `None` when reading the parquet
   * file raises.  A missing file reports 0 and leaves the table alone;
   * otherwise the cleaned rows are loaded as `Loaded` says.
   */
  method ImportParquetToTable(render: Cell -> string, fileExists: bool, frame: Option<Frame>, deleteOk: bool,
                              ok: nat -> bool, table0: seq<seq<Value>>)
    returns (table: seq<seq<Value>>, count: nat)
    requires frame.Some? ==> WellFormed(frame.value)
    ensures !fileExists || frame.None? ==> table == table0 && count == 0
    ensures fileExists && frame.Some? ==> Loaded(Cleaned(render, frame.value), deleteOk, ok, table0, table, count)
  {
    if !fileExists || frame.None? {
      return table0, 0;
    }
    var rows := ValidateAndClean(ColumnVariations, ExpectedColumns, render, frame.value);
    table, count := LoadRows(rows, deleteOk, ok, table0);
  }

  /**
   * `main`'s exit status: 1 when neither file exists, when no connection
   * is made, or when the imports together report nothing; 0 otherwise.
   * A file that is not found is not imported and adds nothing.
   */
  function ExitStatus(connected: bool, unvotedFound: bool, unvotedCount: nat, votedFound: bool, votedCount: nat): (code: int)
    ensures code == 0 || code == 1
    ensures code == 0 <==> connected && ((unvotedFound && unvotedCount > 0) || (votedFound && votedCount > 0))
  {
    if !unvotedFound && !votedFound then 1
    else if !connected then 1
    else
      var total := (if unvotedFound then unvotedCount else 0) + (if votedFound then votedCount else 0);
      if total > 0 then 0 else 1
  }
}
