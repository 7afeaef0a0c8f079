/**
 * A pandas frame as the importers see it: column names and rows of cells.
 * Column access, the `df[dst] = df[src]` copy, `df[cols]` projection and
 * the per-column conversions `int(x)` / `float(x)` applied to cells.
 */
module Frames {
  import opened Wrappers
  import opened PyNum

  /** A cell: missing (None/NaN after cleaning), a number, or text. */
  datatype Cell = Null | Number(n: Num) | Text(s: string)

  datatype Frame = Frame(columns: seq<string>, rows: seq<seq<Cell>>)

  predicate WellFormed(f: Frame) {
    forall r :: 0 <= r < |f.rows| ==> |f.rows[r]| == |f.columns|
  }

  /** Position of the first column called `name`, or `|cols|`. */
  function ColumnIndex(cols: seq<string>, name: string): (i: nat)
    ensures i <= |cols|
    ensures i < |cols| ==> cols[i] == name
    ensures forall j :: 0 <= j < i ==> cols[j] != name
    decreases |cols|
  {
    if cols == [] then 0 else if cols[0] == name then 0 else 1 + ColumnIndex(cols[1..], name)
  }

  /** `row[name]`; `None` is the KeyError of a missing column. */
  function Lookup(cols: seq<string>, row: seq<Cell>, name: string): (r: Option<Cell>)
    ensures r.Some? <==> name in cols && ColumnIndex(cols, name) < |row|
  {
    var i := ColumnIndex(cols, name);
    if i < |cols| && i < |row| then Some(row[i]) else None
  }

  /**
   * `if src in df.columns and dst not in df.columns: df[dst] = df[src]`:
   * appends a copy of column `src` under the name `dst`.
   */
  function CopyColumnIfAbsent(f: Frame, src: string, dst: string): (g: Frame)
    requires WellFormed(f)
    ensures WellFormed(g)
    ensures dst in f.columns || src !in f.columns ==> g == f
    ensures src in f.columns && dst !in f.columns ==>
      g.columns == f.columns + [dst] && |g.rows| == |f.rows| &&
      forall r :: 0 <= r < |g.rows| ==> g.rows[r] == f.rows[r] + [f.rows[r][ColumnIndex(f.columns, src)]]
  {
    if src in f.columns && dst !in f.columns then
      var i := ColumnIndex(f.columns, src);
      Frame(f.columns + [dst], seq(|f.rows|, r requires 0 <= r < |f.rows| => f.rows[r] + [f.rows[r][i]]))
    else f
  }

  /** A copied column reads the src column's value in every row; an existing target is untouched. */
  lemma CopyColumnReadsOld(f: Frame, src: string, dst: string, r: nat)
    requires WellFormed(f) && r < |f.rows|
    requires src in f.columns
    ensures Lookup(CopyColumnIfAbsent(f, src, dst).columns, CopyColumnIfAbsent(f, src, dst).rows[r], dst)
      == (if dst in f.columns then Lookup(f.columns, f.rows[r], dst) else Lookup(f.columns, f.rows[r], src))
  {
    var g := CopyColumnIfAbsent(f, src, dst);
    if dst !in f.columns {
      ColumnIndexAppend(f.columns, dst);
    }
  }

  lemma ColumnIndexAppend(cols: seq<string>, name: string)
    requires name !in cols
    ensures ColumnIndex(cols + [name], name) == |cols|
  {
    assert (cols + [name])[|cols|] == name;
    assert forall j :: 0 <= j < |cols| ==> (cols + [name])[j] == cols[j];
  }

  /** Copying into `dst` leaves every other column's value unchanged. */
  lemma CopyColumnKeepsOthers(f: Frame, src: string, dst: string, r: nat, name: string)
    requires WellFormed(f) && r < |f.rows| && name != dst
    ensures Lookup(CopyColumnIfAbsent(f, src, dst).columns, CopyColumnIfAbsent(f, src, dst).rows[r], name)
      == Lookup(f.columns, f.rows[r], name)
  {
    var g := CopyColumnIfAbsent(f, src, dst);
    if g != f {
      ColumnIndexPrefix(f.columns, dst, name);
    }
  }

  lemma {:induction false} ColumnIndexPrefix(cols: seq<string>, extra: string, name: string)
    requires name != extra
    ensures name in cols ==> ColumnIndex(cols + [extra], name) == ColumnIndex(cols, name)
    ensures name !in cols ==> ColumnIndex(cols + [extra], name) == |cols| + 1
    decreases |cols|
  {
    if cols == [] {
      assert [] + [extra] == [extra];
    } else {
      assert (cols + [extra])[1..] == cols[1..] + [extra];
      ColumnIndexPrefix(cols[1..], extra, name);
    }
  }

  /** `[c for c in names if c in cols]`. */
  function KeepPresent(names: seq<string>, cols: seq<string>): (r: seq<string>)
    ensures forall x :: x in r <==> x in names && x in cols
    ensures |r| <= |names|
    decreases |names|
  {
    if names == [] then []
    else if names[0] in cols then [names[0]] + KeepPresent(names[1..], cols)
    else KeepPresent(names[1..], cols)
  }

  /** `[c for c in names if c not in cols]`. */
  function KeepAbsent(names: seq<string>, cols: seq<string>): (r: seq<string>)
    ensures forall x :: x in r <==> x in names && x !in cols
    ensures |r| <= |names|
    decreases |names|
  {
    if names == [] then []
    else if names[0] !in cols then [names[0]] + KeepAbsent(names[1..], cols)
    else KeepAbsent(names[1..], cols)
  }

  predicate Distinct(names: seq<string>) {
    forall i, j :: 0 <= i < j < |names| ==> names[i] != names[j]
  }

  lemma DistinctTail(names: seq<string>)
    requires Distinct(names) && names != []
    ensures Distinct(names[1..]) && names[0] !in names[1..]
  {
    var tail := names[1..];
    forall i, j | 0 <= i < j < |tail| ensures tail[i] != tail[j] {
      assert tail[i] == names[i + 1] && tail[j] == names[j + 1];
    }
    forall i | 0 <= i < |tail| ensures tail[i] != names[0] {
      assert tail[i] == names[i + 1];
    }
  }

  lemma ColumnIndexTail(names: seq<string>, x: string)
    requires names != [] && x in names[1..] && x != names[0]
    ensures ColumnIndex(names, x) == 1 + ColumnIndex(names[1..], x) && ColumnIndex(names[1..], x) < |names| - 1
  {
  }

  /** Every name is either kept by `KeepPresent` or by `KeepAbsent`. */
  lemma {:induction false} KeepPartition(names: seq<string>, cols: seq<string>)
    ensures |KeepPresent(names, cols)| + |KeepAbsent(names, cols)| == |names|
    decreases |names|
  {
    if names != [] {
      KeepPartition(names[1..], cols);
    }
  }

  /** The names of `r` appear in `names` in this order. */
  predicate InOrder(names: seq<string>, r: seq<string>) {
    forall i, j :: 0 <= i < j < |r| ==> ColumnIndex(names, r[i]) < ColumnIndex(names, r[j])
  }

  /** The kept names are distinct and appear in the order of `names`. */
  lemma {:induction false} KeepPresentInOrder(names: seq<string>, cols: seq<string>)
    requires Distinct(names)
    ensures Distinct(KeepPresent(names, cols))
    ensures InOrder(names, KeepPresent(names, cols))
    decreases |names|
  {
    if names != [] {
      var tail := names[1..];
      DistinctTail(names);
      KeepPresentInOrder(tail, cols);
      var rest := KeepPresent(tail, cols);
      if names[0] in cols {
        assert KeepPresent(names, cols) == [names[0]] + rest;
        InOrderCons(names, rest);
      } else {
        assert KeepPresent(names, cols) == rest;
        InOrderTail(names, rest);
      }
    }
  }

  lemma InOrderTail(names: seq<string>, rest: seq<string>)
    requires names != [] && names[0] !in names[1..]
    requires forall x :: x in rest ==> x in names[1..]
    requires InOrder(names[1..], rest)
    ensures InOrder(names, rest)
  {
    forall i, j | 0 <= i < j < |rest|
      ensures ColumnIndex(names, rest[i]) < ColumnIndex(names, rest[j])
    {
      assert rest[i] in rest && rest[j] in rest;
      ColumnIndexTail(names, rest[i]);
      ColumnIndexTail(names, rest[j]);
    }
  }

  lemma InOrderCons(names: seq<string>, rest: seq<string>)
    requires names != [] && names[0] !in names[1..]
    requires forall x :: x in rest ==> x in names[1..]
    requires InOrder(names[1..], rest) && Distinct(rest)
    ensures InOrder(names, [names[0]] + rest) && Distinct([names[0]] + rest)
  {
    InOrderTail(names, rest);
    var r := [names[0]] + rest;
    forall i, j | 0 <= i < j < |r|
      ensures ColumnIndex(names, r[i]) < ColumnIndex(names, r[j]) && r[i] != r[j]
    {
      assert r[j] == rest[j - 1] && r[j] in rest;
      ColumnIndexTail(names, r[j]);
      if i > 0 {
        assert r[i] == rest[i - 1];
      }
    }
  }

  /** `df[names]`: the projection on `names`, in that order; `None` is the KeyError of an absent name. */
  function Select(f: Frame, names: seq<string>): (g: Option<Frame>)
    requires WellFormed(f)
    ensures g.Some? <==> forall k :: 0 <= k < |names| ==> names[k] in f.columns
    ensures g.Some? ==> g.value.columns == names && |g.value.rows| == |f.rows| && WellFormed(g.value)
    ensures g.Some? ==> forall r, k :: 0 <= r < |f.rows| && 0 <= k < |names| ==>
      g.value.rows[r][k] == f.rows[r][ColumnIndex(f.columns, names[k])]
  {
    if forall k :: 0 <= k < |names| ==> names[k] in f.columns then
      Some(Frame(names, seq(|f.rows|, r requires 0 <= r < |f.rows| =>
        seq(|names|, k requires 0 <= k < |names| => f.rows[r][ColumnIndex(f.columns, names[k])]))))
    else None
  }

  /** `[c for c in names if c in df.columns]` with the missing ones, and `df[existing]`. */
  method SelectExisting(f: Frame, names: seq<string>) returns (g: Frame, existing: seq<string>, missing: seq<string>)
    requires WellFormed(f)
    ensures existing == KeepPresent(names, f.columns)
    ensures missing == KeepAbsent(names, f.columns)
    ensures forall c :: c in names ==> (c in existing <==> c !in missing)
    ensures forall c :: c in existing ==> c in names && c in f.columns
    ensures g.columns == existing && |g.rows| == |f.rows| && WellFormed(g)
    ensures forall k :: 0 <= k < |existing| ==> existing[k] in f.columns
    ensures forall r, k :: 0 <= r < |f.rows| && 0 <= k < |existing| ==>
      g.rows[r][k] == f.rows[r][ColumnIndex(f.columns, existing[k])]
    ensures Select(f, existing) == Some(g)
  {
    missing := KeepAbsent(names, f.columns);
    existing := KeepPresent(names, f.columns);
    assert forall k :: 0 <= k < |existing| ==> existing[k] in f.columns;
    g := Select(f, existing).value;
  }

  /** How one position of the output row is produced from its cell. */
  datatype Kind = AsIs | AsInt | AsFloat

  /** A converted value. */
  datatype Value = VNull | VInt(i: int) | VNum(n: Num) | VCell(c: Cell)

  /** `pd.notnull` after infinities and NaN have been replaced by None. */
  predicate IsNull(c: Cell) {
    c.Null? || (c.Number? && !c.n.Finite?)
  }

  /**
   * `int(x) if pd.notnull(x) else None`, `float(x) ...` or `x ... else None`.
   * `None` is the exception `int()`/`float()` raises on a text cell.
   */
  function ConvertCell(c: Cell, k: Kind): (v: Option<Value>)
    ensures IsNull(c) ==> v == Some(VNull)
    ensures !IsNull(c) && k == AsIs ==> v == Some(VCell(c))
    ensures !IsNull(c) && c.Number? && k == AsInt ==> v == Some(VInt(IntOf(c.n).value))
    ensures !IsNull(c) && c.Text? && k == AsInt ==> (v.Some? <==> ParseIntStrict(c.s).Some?)
    ensures !IsNull(c) && c.Text? && k == AsFloat ==> (v.Some? <==> ParseFloat(c.s).Some?)
    ensures v.Some? && !IsNull(c) && k == AsInt ==> v.value.VInt?
    ensures v.Some? && !IsNull(c) && k == AsFloat ==> v.value.VNum?
  {
    if IsNull(c) then Some(VNull)
    else match k
      case AsIs => Some(VCell(c))
      case AsInt =>
        (match c
         case Number(n) => Some(VInt(IntOf(n).value))
         case Text(s) => (match ParseIntStrict(s) case None => None case Some(i) => Some(VInt(i)))
         case Null => None)
      case AsFloat =>
        (match c
         case Number(n) => Some(VNum(n))
         case Text(s) => (match ParseFloat(s) case None => None case Some(n) => Some(VNum(n)))
         case Null => None)
  }

  /** A row converted column by column: position `k` reads column `names[k]` and applies `kinds[k]`. */
  function ConvertRow(cols: seq<string>, row: seq<Cell>, names: seq<string>, kinds: seq<Kind>): (r: Option<seq<Value>>)
    requires |names| == |kinds|
    ensures r.Some? ==> |r.value| == |names|
    decreases |names|
  {
    if names == [] then Some([])
    else
      match Lookup(cols, row, names[0])
      case None => None
      case Some(c) =>
        match ConvertCell(c, kinds[0])
        case None => None
        case Some(v) =>
          match ConvertRow(cols, row, names[1..], kinds[1..])
          case None => None
          case Some(rest) => Some([v] + rest)
  }

  /** Whether the cell for position `k` is present and converts. */
  predicate Converts(cols: seq<string>, row: seq<Cell>, name: string, kind: Kind) {
    Lookup(cols, row, name).Some? && ConvertCell(Lookup(cols, row, name).value, kind).Some?
  }

  /**
   * A row converts iff every named cell is present and converts, and then
   * position `k` holds the conversion of column `names[k]`.
   */
  lemma {:induction false} ConvertRowMeaning(cols: seq<string>, row: seq<Cell>, names: seq<string>, kinds: seq<Kind>)
    requires |names| == |kinds|
    ensures ConvertRow(cols, row, names, kinds).Some? <==>
      forall k :: 0 <= k < |names| ==> Converts(cols, row, names[k], kinds[k])
    ensures ConvertRow(cols, row, names, kinds).Some? ==> forall k :: 0 <= k < |names| ==>
      ConvertRow(cols, row, names, kinds).value[k] == ConvertCell(Lookup(cols, row, names[k]).value, kinds[k]).value
    decreases |names|
  {
    if names != [] {
      ConvertRowMeaning(cols, row, names[1..], kinds[1..]);
      var r := ConvertRow(cols, row, names, kinds);
      if Converts(cols, row, names[0], kinds[0]) {
        forall k | 1 <= k < |names|
          ensures Converts(cols, row, names[k], kinds[k]) == Converts(cols, row, names[1..][k - 1], kinds[1..][k - 1])
        {
          assert names[1..][k - 1] == names[k] && kinds[1..][k - 1] == kinds[k];
        }
        if r.Some? {
          var rest := ConvertRow(cols, row, names[1..], kinds[1..]).value;
          forall k | 1 <= k < |names|
            ensures r.value[k] == ConvertCell(Lookup(cols, row, names[k]).value, kinds[k]).value
          {
            assert r.value[k] == rest[k - 1];
            assert names[1..][k - 1] == names[k] && kinds[1..][k - 1] == kinds[k];
          }
        }
      }
    }
  }

  /** The converted rows of a frame, or `[]` when some row raises. */
  function ChunkRows(f: Frame, names: seq<string>, kinds: seq<Kind>): seq<seq<Value>>
    requires |names| == |kinds|
  {
    if forall r :: 0 <= r < |f.rows| ==> ConvertRow(f.columns, f.rows[r], names, kinds).Some? then
      seq(|f.rows|, r requires 0 <= r < |f.rows| => ConvertRow(f.columns, f.rows[r], names, kinds).value)
    else []
  }

  /**
   * `process_dataframe_chunk`: converts every row in order; any exception
   * gives the empty list.
   */
  method ProcessChunk(f: Frame, names: seq<string>, kinds: seq<Kind>) returns (processed: seq<seq<Value>>)
    requires |names| == |kinds|
    ensures (forall r :: 0 <= r < |f.rows| ==> ConvertRow(f.columns, f.rows[r], names, kinds).Some?) ==>
      |processed| == |f.rows| &&
      forall r :: 0 <= r < |f.rows| ==> processed[r] == ConvertRow(f.columns, f.rows[r], names, kinds).value
    ensures (exists r :: 0 <= r < |f.rows| && ConvertRow(f.columns, f.rows[r], names, kinds).None?) ==> processed == []
    ensures processed == ChunkRows(f, names, kinds)
  {
    processed := [];
    var r := 0;
    while r < |f.rows|
      invariant r <= |f.rows| && |processed| == r
      invariant forall q :: 0 <= q < r ==> ConvertRow(f.columns, f.rows[q], names, kinds).Some?
      invariant forall q :: 0 <= q < r ==> processed[q] == ConvertRow(f.columns, f.rows[q], names, kinds).value
    {
      var converted := ConvertRow(f.columns, f.rows[r], names, kinds);
      if converted.None? {
        return [];
      }
      processed := processed + [converted.value];
      r := r + 1;
    }
  }
}
