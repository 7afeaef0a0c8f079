/**
 * import_proxy_sel_account_voted.py: the single-table variant of the
 * proxy_sel import.  Instead of fixed name variants it maps columns
 * fuzzily: when an expected column is missing, every expected column is
 * sent the first frame column whose lower-case name contains, or is
 * contained in, its own.  Cleaning and the batch loop are those of
 * `ProxySelUnified`; the table is always `account_voted`.
 */
module ProxySelVoted {
  import opened Wrappers
  import opened PyText
  import opened Frames
  import ProxySelUnified

  /** `expected_col.lower() in actual_col.lower() or actual_col.lower() in expected_col.lower()`. */
  predicate Matches(expected: string, actual: string) {
    Contains(Lower(actual), Lower(expected)) || Contains(Lower(expected), Lower(actual))
  }

  /** Every name matches itself, so an expected column that is present always finds a first match. */
  lemma PresentColumnMatched(e: string, cols: seq<string>)
    requires e in cols
    ensures FirstMatch(Matches, e, cols).Some?
  {
    var k :| 0 <= k < |cols| && cols[k] == e;
    assert Lower(e)[..|Lower(e)|] == Lower(e);
    assert Matches(e, cols[k]);
  }

  /** The first frame column that passes the name test `p` against `e`. */
  function FirstMatch(p: (string, string) -> bool, e: string, cols: seq<string>): (r: Option<string>)
    ensures r.None? <==> forall k :: 0 <= k < |cols| ==> !p(e, cols[k])
    ensures r.Some? ==> exists k :: (0 <= k < |cols| && cols[k] == r.value && p(e, r.value) &&
      forall j :: 0 <= j < k ==> !p(e, cols[j]))
    decreases |cols|
  {
    if cols == [] then None
    else if p(e, cols[0]) then Some(cols[0])
    else
      var r := FirstMatch(p, e, cols[1..]);
      assert forall k :: 1 <= k < |cols| ==> cols[k] == cols[1..][k - 1];
      r
  }

  /** The inner `for actual_col in df.columns: if ...: ...; break`. */
  method FirstMatching(p: (string, string) -> bool, e: string, cols: seq<string>) returns (found: Option<string>)
    ensures found == FirstMatch(p, e, cols)
  {
    var j := 0;
    while j < |cols|
      invariant j <= |cols|
      invariant FirstMatch(p, e, cols) == FirstMatch(p, e, cols[j..])
    {
      if p(e, cols[j]) {
        return Some(cols[j]);
      }
      assert cols[j..][1..] == cols[j + 1..];
      j := j + 1;
    }
    return None;
  }

  /** The lookup of the inner loop: the first frame column passing the name test. */
  function FirstMatchOf(p: (string, string) -> bool, cols: seq<string>): string -> Option<string> {
    e => FirstMatch(p, e, cols)
  }

  /**
   * `column_mapping`: each expected column, in order, is assigned to its
   * first match, so a later expected column overwrites an earlier one
   * that found the same frame column (`ProxySelUnified.AssignOnly`).
   */
  function FuzzyOf(p: (string, string) -> bool, expected: seq<string>, cols: seq<string>): map<string, string> {
    ProxySelUnified.Assign(FirstMatchOf(p, cols), expected)
  }

  /** The nested loops of `validate_and_clean_data` that fill `column_mapping`. */
  method FuzzyMapping(p: (string, string) -> bool, expected: seq<string>, cols: seq<string>) returns (mapping: map<string, string>)
    ensures mapping == FuzzyOf(p, expected, cols)
  {
    mapping := map[];
    var i := 0;
    while i < |expected|
      invariant i <= |expected|
      invariant mapping == ProxySelUnified.Assign(FirstMatchOf(p, cols), expected[..i])
    {
      assert expected[..i + 1][..i] == expected[..i];
      var found := FirstMatching(p, expected[i], cols);
      if found.Some? {
        mapping := mapping[found.value := expected[i]];
      }
      i := i + 1;
    }
    assert expected[..i] == expected;
  }

  /** The column names after the fuzzy step: unchanged unless an expected column is missing. */
  function FuzzyResolved(p: (string, string) -> bool, expected: seq<string>, cols: seq<string>): (r: seq<string>)
    ensures |r| == |cols|
    ensures KeepAbsent(expected, cols) == [] ==> r == cols
  {
    if KeepAbsent(expected, cols) == [] then cols
    else ProxySelUnified.Rename(cols, FuzzyOf(p, expected, cols))
  }

  /**
   * After the fuzzy step a column keeps its name unless it is some
   * expected column's first match; the first match of expected column `i`
   * takes its name when no later expected column matches it first.
   */
  lemma FuzzyResolvedMeaning(p: (string, string) -> bool, expected: seq<string>, cols: seq<string>, k: nat)
    requires k < |cols| && KeepAbsent(expected, cols) != []
    ensures (forall i :: 0 <= i < |expected| ==> FirstMatch(p, expected[i], cols) != Some(cols[k])) ==>
      FuzzyResolved(p, expected, cols)[k] == cols[k]
    ensures forall i :: (0 <= i < |expected| && FirstMatch(p, expected[i], cols) == Some(cols[k]) &&
      (forall j :: i < j < |expected| ==> FirstMatch(p, expected[j], cols) != Some(cols[k]))) ==>
      FuzzyResolved(p, expected, cols)[k] == expected[i]
  {
    ProxySelUnified.AssignKeys(FirstMatchOf(p, cols), expected, cols[k]);
    forall i | 0 <= i < |expected| && FirstMatch(p, expected[i], cols) == Some(cols[k]) &&
      (forall j :: i < j < |expected| ==> FirstMatch(p, expected[j], cols) != Some(cols[k]))
      ensures FuzzyResolved(p, expected, cols)[k] == expected[i]
    {
      ProxySelUnified.AssignOnly(FirstMatchOf(p, cols), expected, i);
    }
  }

  /** The frame after the fuzzy step: the renamed columns over the same rows. */
  function Renamed(f: Frame): (g: Frame)
    requires WellFormed(f)
    ensures WellFormed(g) && g.rows == f.rows
    ensures g.columns == FuzzyResolved(Matches, ProxySelUnified.ExpectedColumns, f.columns)
  {
    Frame(FuzzyResolved(Matches, ProxySelUnified.ExpectedColumns, f.columns), f.rows)
  }

  /** `cols` carries the label `e` on two columns or more. */
  predicate Repeated(cols: seq<string>, e: string) {
    exists i, j :: 0 <= i < j < |cols| && cols[i] == e && cols[j] == e
  }

  /** Some name of `names` is carried by two columns or more. */
  predicate Repeats(names: seq<string>, cols: seq<string>) {
    exists k :: 0 <= k < |names| && Repeated(cols, names[k])
  }

  /** The columns `pd.to_numeric` converts, and the hash column whose `.str` the cleaning takes. */
  predicate Fatal(name: string) {
    ProxySelUnified.KindOf(name) != ProxySelUnified.TextColumn || name == ProxySelUnified.HashColumn
  }

  /**
   * A repeated label the cleaning does not survive: `df[col]` is then a
   * frame of several columns, on which `pd.to_numeric` raises TypeError
   * and `.str` raises AttributeError.  A repeated `account_type` passes.
   */
  predicate Breaks(names: seq<string>, cols: seq<string>) {
    exists k :: 0 <= k < |names| && Fatal(names[k]) && Repeated(cols, names[k])
  }

  /** The positions, from `from` on, of the columns called `e`, left to right. */
  function PositionsOf(e: string, cols: seq<string>, from: nat): (r: seq<nat>)
    ensures forall k :: 0 <= k < |r| ==> from <= r[k] < |cols| && cols[r[k]] == e
    decreases |cols| - from
  {
    if from >= |cols| then []
    else (if cols[from] == e then [from] else []) + PositionsOf(e, cols, from + 1)
  }

  /** Every column called `e` from `from` on has its position listed. */
  lemma {:induction false} PositionsOfComplete(e: string, cols: seq<string>, from: nat, i: nat)
    requires from <= i < |cols| && cols[i] == e
    ensures i in PositionsOf(e, cols, from)
    decreases |cols| - from
  {
    if from < i {
      PositionsOfComplete(e, cols, from + 1, i);
    }
  }

  /**
   * The column positions `df[names]` takes: for each name in turn, every
   * column carrying it, so a repeated label brings all its columns.
   */
  function Positions(names: seq<string>, cols: seq<string>): (r: seq<nat>)
    ensures forall k :: 0 <= k < |r| ==> r[k] < |cols|
    decreases |names|
  {
    if names == [] then [] else PositionsOf(names[0], cols, 0) + Positions(names[1..], cols)
  }

  /** `df[names]`, for names that all exist: the columns at `Positions`, each row projected alike. */
  function Selection(names: seq<string>, f: Frame): (g: Frame)
    requires WellFormed(f)
    ensures WellFormed(g) && |g.rows| == |f.rows|
    ensures |g.columns| == |Positions(names, f.columns)|
    ensures forall k :: 0 <= k < |g.columns| ==> g.columns[k] == f.columns[Positions(names, f.columns)[k]]
  {
    var P := Positions(names, f.columns);
    Frame(seq(|P|, k requires 0 <= k < |P| => f.columns[P[k]]),
          seq(|f.rows|, r requires 0 <= r < |f.rows| => seq(|P|, k requires 0 <= k < |P| => f.rows[r][P[k]])))
  }

  /** Two positions of one label, from `from` on, make it repeated. */
  lemma {:induction false} TwoPositionsRepeat(e: string, cols: seq<string>, from: nat)
    ensures |PositionsOf(e, cols, from)| >= 2 ==> Repeated(cols, e)
    decreases |cols| - from
  {
    var r := PositionsOf(e, cols, from);
    if |r| >= 2 {
      var rest := PositionsOf(e, cols, from + 1);
      if cols[from] == e {
        assert r == [from] + rest;
        assert from < rest[0] && cols[rest[0]] == e;
      } else {
        assert r == rest;
        TwoPositionsRepeat(e, cols, from + 1);
      }
    }
  }

  /** A label no column carries has no position. */
  lemma {:induction false} PositionsOfAbsent(e: string, cols: seq<string>, from: nat)
    requires e !in cols
    ensures PositionsOf(e, cols, from) == []
    decreases |cols| - from
  {
    if from < |cols| {
      assert cols[from] in cols;
      PositionsOfAbsent(e, cols, from + 1);
    }
  }

  /** A label carried once is found at its first position only. */
  lemma {:induction false} PositionsOfSingle(e: string, cols: seq<string>)
    requires !Repeated(cols, e)
    ensures PositionsOf(e, cols, 0) == if e in cols then [ColumnIndex(cols, e)] else []
  {
    if e in cols {
      TwoPositionsRepeat(e, cols, 0);
      var r := PositionsOf(e, cols, 0);
      var c := ColumnIndex(cols, e);
      assert c < |cols| by {
        var j :| 0 <= j < |cols| && cols[j] == e;
        assert c <= j;
      }
      PositionsOfComplete(e, cols, 0, c);
      assert |r| == 1 && r[0] == c;
    } else {
      PositionsOfAbsent(e, cols, 0);
    }
  }

  /** Two columns called `e` at or after `from` give two positions from `from` on. */
  lemma {:induction false} RepeatTwoPositions(e: string, cols: seq<string>, from: nat, i: nat, j: nat)
    requires from <= i < j < |cols| && cols[i] == e && cols[j] == e
    ensures |PositionsOf(e, cols, from)| >= 2
    decreases |cols| - from
  {
    var rest := PositionsOf(e, cols, from + 1);
    if from == i {
      PositionsOfComplete(e, cols, from + 1, j);
      assert PositionsOf(e, cols, from) == [from] + rest;
    } else {
      RepeatTwoPositions(e, cols, from + 1, i, j);
    }
  }

  /** Without repeated labels, `df[names]` takes the first column of each name present. */
  lemma {:induction false} PositionsWithoutRepeats(names: seq<string>, cols: seq<string>)
    requires !Repeats(names, cols)
    ensures var P := Positions(names, cols); var K := KeepPresent(names, cols);
      |P| == |K| && forall k :: 0 <= k < |K| ==> P[k] == ColumnIndex(cols, K[k])
    decreases |names|
  {
    if names != [] {
      var tail := names[1..];
      assert !Repeated(cols, names[0]);
      PositionsOfSingle(names[0], cols);
      assert !Repeats(tail, cols) by {
        forall k | 0 <= k < |tail|
          ensures !Repeated(cols, tail[k])
        {
          assert tail[k] == names[k + 1];
        }
      }
      PositionsWithoutRepeats(tail, cols);
      var P', K' := Positions(tail, cols), KeepPresent(tail, cols);
      assert Positions(names, cols) == PositionsOf(names[0], cols, 0) + P';
      if names[0] in cols {
        assert KeepPresent(names, cols) == [names[0]] + K';
      } else {
        assert KeepPresent(names, cols) == K';
      }
    }
  }

  /**
   * Without repeated labels the selection is the first-column projection
   * `ProxySelUnified.Project`, which the other scripts use.
   */
  lemma SelectionWithoutRepeats(names: seq<string>, f: Frame)
    requires WellFormed(f) && !Repeats(names, f.columns)
    ensures Selection(names, f) == ProxySelUnified.Project(names, f)
  {
    PositionsWithoutRepeats(names, f.columns);
    var K := KeepPresent(names, f.columns);
    var g := Selection(names, f);
    var h := ProxySelUnified.Project(names, f);
    assert forall k :: 0 <= k < |K| ==> K[k] in f.columns;
    assert g.columns == h.columns;
    assert forall r :: 0 <= r < |f.rows| ==> g.rows[r] == h.rows[r];
  }

  /** A repeated label among `names` yields two selected positions `k < l` carrying it. */
  lemma {:induction false} RepeatedPositions(names: seq<string>, cols: seq<string>, e: string) returns (k: nat, l: nat)
    requires e in names && Repeated(cols, e)
    ensures k < l < |Positions(names, cols)|
    ensures cols[Positions(names, cols)[k]] == e && cols[Positions(names, cols)[l]] == e
    decreases |names|
  {
    var head := PositionsOf(names[0], cols, 0);
    var rest := Positions(names[1..], cols);
    var P := Positions(names, cols);
    assert P == head + rest;
    if names[0] == e {
      var i, j :| 0 <= i < j < |cols| && cols[i] == e && cols[j] == e;
      RepeatTwoPositions(e, cols, 0, i, j);
      k, l := 0, 1;
      assert P[0] == head[0] && P[1] == head[1];
    } else {
      assert e in names[1..];
      var k', l' := RepeatedPositions(names[1..], cols, e);
      k, l := |head| + k', |head| + l';
      assert P[k] == rest[k'] && P[l] == rest[l'];
    }
  }

  /** `df[names]` keeps every column of a repeated label, so the selected frame repeats it too. */
  lemma RepeatKept(names: seq<string>, f: Frame, e: string)
    requires WellFormed(f) && e in names && Repeated(f.columns, e)
    ensures Repeated(Selection(names, f).columns, e)
  {
    var k, l := RepeatedPositions(names, f.columns, e);
    var g := Selection(names, f);
    assert g.columns[k] == e && g.columns[l] == e;
  }

  /**
   * The fuzzy step can give two columns one name: column `k` is renamed to
   * `expected[i]` while column `m`, already called so, is nobody's first
   * match and keeps it (a frame with `score` before `score_model2`, say).
   */
  lemma RenameCollision(p: (string, string) -> bool, expected: seq<string>, cols: seq<string>, i: nat, k: nat, m: nat)
    requires KeepAbsent(expected, cols) != []
    requires i < |expected| && k < |cols| && m < |cols| && k != m && cols[m] == expected[i]
    requires FirstMatch(p, expected[i], cols) == Some(cols[k])
    requires forall j :: i < j < |expected| ==> FirstMatch(p, expected[j], cols) != Some(cols[k])
    requires forall j :: 0 <= j < |expected| ==> FirstMatch(p, expected[j], cols) != Some(cols[m])
    ensures Repeated(FuzzyResolved(p, expected, cols), expected[i])
  {
    var r := FuzzyResolved(p, expected, cols);
    FuzzyResolvedMeaning(p, expected, cols, k);
    FuzzyResolvedMeaning(p, expected, cols, m);
    assert r[k] == expected[i] && r[m] == expected[i];
    if k < m {
      assert 0 <= k < m < |r| && r[k] == expected[i] && r[m] == expected[i];
    } else {
      assert 0 <= m < k < |r| && r[m] == expected[i] && r[k] == expected[i];
    }
  }

  /** Such a collision on any expected column but `account_type` makes the cleaning raise. */
  lemma CollisionRaises(render: Cell -> string, f: Frame, i: nat, k: nat, m: nat)
    requires WellFormed(f)
    requires KeepAbsent(ProxySelUnified.ExpectedColumns, f.columns) != []
    requires i < |ProxySelUnified.ExpectedColumns| && k < |f.columns| && m < |f.columns| && k != m
    requires f.columns[m] == ProxySelUnified.ExpectedColumns[i] && Fatal(ProxySelUnified.ExpectedColumns[i])
    requires FirstMatch(Matches, ProxySelUnified.ExpectedColumns[i], f.columns) == Some(f.columns[k])
    requires forall j :: i < j < |ProxySelUnified.ExpectedColumns| ==>
      FirstMatch(Matches, ProxySelUnified.ExpectedColumns[j], f.columns) != Some(f.columns[k])
    requires forall j :: 0 <= j < |ProxySelUnified.ExpectedColumns| ==>
      FirstMatch(Matches, ProxySelUnified.ExpectedColumns[j], f.columns) != Some(f.columns[m])
    ensures Cleaned(render, f).None?
  {
    RenameCollision(Matches, ProxySelUnified.ExpectedColumns, f.columns, i, k, m);
    assert Breaks(ProxySelUnified.ExpectedColumns, Renamed(f).columns);
  }

  /**
   * `validate_and_clean_data` on the renamed frame `g`: `None` is an
   * exception, from a repeated numeric or hash label or from the cleaning
   * of `ProxySelUnified.CleanFrame`; otherwise the cleaned rows of the
   * selection with a hash.
   */
  function CleanedBy(names: seq<string>, render: Cell -> string, g: Frame): (r: Option<seq<seq<Value>>>)
    requires WellFormed(g)
    ensures Breaks(names, g.columns) ==> r.None?
    ensures !Breaks(names, g.columns) ==> r == ProxySelUnified.CleanFrame(render, Selection(names, g))
  {
    if Breaks(names, g.columns) then None else ProxySelUnified.CleanFrame(render, Selection(names, g))
  }

  /**
   * Without a repeated label the cleaning is that of the other scripts,
   * on the first-column projection; a repeated numeric or hash label
   * always raises, whatever the rows hold.
   */
  lemma CleanedByMeaning(names: seq<string>, render: Cell -> string, g: Frame)
    requires WellFormed(g)
    ensures !Repeats(names, g.columns) ==>
      CleanedBy(names, render, g) == ProxySelUnified.CleanFrame(render, ProxySelUnified.Project(names, g))
    ensures (exists k :: 0 <= k < |names| && names[k] in ProxySelUnified.IntColumns && Repeated(g.columns, names[k])) ==>
      CleanedBy(names, render, g).None?
    ensures ProxySelUnified.HashColumn in names && Repeated(g.columns, ProxySelUnified.HashColumn) ==>
      CleanedBy(names, render, g).None?
  {
    if !Repeats(names, g.columns) {
      SelectionWithoutRepeats(names, g);
    }
    if ProxySelUnified.HashColumn in names && Repeated(g.columns, ProxySelUnified.HashColumn) {
      var k :| 0 <= k < |names| && names[k] == ProxySelUnified.HashColumn;
      assert Fatal(names[k]);
    }
  }

  /** This script's cleaned rows of the frame `f`, `None` when the cleaning raises. */
  function Cleaned(render: Cell -> string, f: Frame): Option<seq<seq<Value>>>
    requires WellFormed(f)
  {
    CleanedBy(ProxySelUnified.ExpectedColumns, render, Renamed(f))
  }

  /**
   * `validate_and_clean_data` of this script, with its mapping loops, for
   * the name test `p`: the cleaned rows, and whether the selected frame
   * repeats a label.
   */
  method ValidateAndClean(p: (string, string) -> bool, expected: seq<string>, render: Cell -> string, f: Frame)
    returns (r: Option<seq<seq<Value>>>, repeated: bool)
    requires WellFormed(f)
    ensures var g := Frame(FuzzyResolved(p, expected, f.columns), f.rows);
      r == CleanedBy(expected, render, g) && repeated == Repeats(expected, g.columns)
  {
    var cols := f.columns;
    var missing := KeepAbsent(expected, cols);
    if missing != [] {
      var mapping := FuzzyMapping(p, expected, cols);
      if |mapping| > 0 {
        cols := ProxySelUnified.Rename(cols, mapping);
      }
    }
    assert cols == FuzzyResolved(p, expected, f.columns);
    var g := Frame(cols, f.rows);
    repeated := Repeats(expected, cols);
    if Breaks(expected, cols) {
      return None, repeated;
    }
    r := ProxySelUnified.CleanFrame(render, Selection(expected, g));
  }

  /**
   * `import_parquet_to_account_voted`: a missing file or a file that
   * cannot be read reports 0 and leaves the table alone.  Without a
   * repeated label the cleaned rows replace the table in committed
   * batches as `ProxySelUnified.Loaded` says.  With one, 0 is reported:
   * the table is untouched when the cleaning raises, finds no row or the
   * DELETE fails, and otherwise the committed DELETE leaves it empty,
   * because building the first batch raises on the repeated column
   * (`pd.isna` of several values in an `if`).
   */
  method ImportParquetToAccountVoted(render: Cell -> string, fileExists: bool, frame: Option<Frame>, deleteOk: bool,
                                     ok: nat -> bool, table0: seq<seq<Value>>)
    returns (table: seq<seq<Value>>, count: nat)
    requires frame.Some? ==> WellFormed(frame.value)
    ensures !fileExists || frame.None? ==> table == table0 && count == 0
    ensures fileExists && frame.Some? && !Repeats(ProxySelUnified.ExpectedColumns, Renamed(frame.value).columns) ==>
      ProxySelUnified.Loaded(Cleaned(render, frame.value), deleteOk, ok, table0, table, count)
    ensures fileExists && frame.Some? && Repeats(ProxySelUnified.ExpectedColumns, Renamed(frame.value).columns) ==>
      var rows := Cleaned(render, frame.value);
      count == 0 && table == (if rows.Some? && rows.value != [] && deleteOk then [] else table0)
  {
    if !fileExists || frame.None? {
      return table0, 0;
    }
    var rows, repeated := ValidateAndClean(Matches, ProxySelUnified.ExpectedColumns, render, frame.value);
    if repeated && rows.Some? && rows.value != [] && deleteOk {
      return [], 0;
    }
    if repeated {
      return table0, 0;
    }
    table, count := ProxySelUnified.LoadRows(rows, deleteOk, ok, table0);
  }

  /** `main`'s exit status: 1 without a connection or when the import reports nothing. */
  function ExitStatus(connected: bool, imported: nat): (code: int)
    ensures code == 0 || code == 1
    ensures code == 0 <==> connected && imported > 0
  {
    if !connected then 1 else if imported > 0 then 0 else 1
  }
}
