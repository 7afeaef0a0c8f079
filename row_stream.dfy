/**
 * Reading a file row by row through a converter that may raise.  The
 * import loops either stop at the first row that raises (`Processed`)
 * or count it as an error and go on (`Good` and `Bad`).  A converter is
 * a function from a row to its value, `None` standing for the exception.
 */
module RowStream {
  import opened Wrappers

  /**
   * The values of the rows read before the first one that raises, and
   * whether one raised.  Defined from the end so that reading one more
   * row is one unfolding.
   */
  function Processed<R, T>(f: R -> Option<T>, rows: seq<R>): (r: (seq<T>, bool))
    decreases |rows|
  {
    if rows == [] then ([], false)
    else
      var p := Processed(f, rows[..|rows| - 1]);
      if p.1 then p
      else
        match f(rows[|rows| - 1])
        case None => (p.0, true)
        case Some(t) => (p.0 + [t], false)
  }

  /** Reading more rows only extends the values, and nothing follows a raise. */
  lemma {:induction false} ProcessedGrows<R, T>(f: R -> Option<T>, rows: seq<R>, i: nat)
    requires i <= |rows|
    ensures Processed(f, rows[..i]).0 <= Processed(f, rows).0
    ensures Processed(f, rows[..i]).1 ==> Processed(f, rows) == Processed(f, rows[..i])
    decreases |rows|
  {
    if i < |rows| {
      var front := rows[..|rows| - 1];
      assert front[..i] == rows[..i];
      ProcessedGrows(f, front, i);
    } else {
      assert rows[..i] == rows;
    }
  }

  /**
   * Nothing raises exactly when no row does, and then there is one value
   * per row, in file order.
   */
  lemma {:induction false} ProcessedMeaning<R, T>(f: R -> Option<T>, rows: seq<R>)
    ensures !Processed(f, rows).1 <==> forall j :: 0 <= j < |rows| ==> f(rows[j]).Some?
    ensures !Processed(f, rows).1 ==>
      var vs := Processed(f, rows).0;
      |vs| == |rows| && forall j :: 0 <= j < |rows| ==> vs[j] == f(rows[j]).value
    decreases |rows|
  {
    if rows != [] {
      var front := rows[..|rows| - 1];
      var last := |rows| - 1;
      ProcessedMeaning(f, front);
      assert forall j :: 0 <= j < |front| ==> front[j] == rows[j];
      var p := Processed(f, front);
      if p.1 {
        var j :| 0 <= j < |front| && f(front[j]).None?;
        assert f(rows[j]).None?;
      } else if f(rows[last]).None? {
        assert Processed(f, rows).1;
      } else {
        var vs := Processed(f, rows).0;
        assert vs == p.0 + [f(rows[last]).value];
      }
    }
  }

  /** One more row: its value is appended, or it raises. */
  lemma ProcessedSnoc<R, T>(f: R -> Option<T>, rows: seq<R>, i: nat)
    requires i < |rows| && !Processed(f, rows[..i]).1
    ensures f(rows[i]).None? ==> Processed(f, rows[..i + 1]) == (Processed(f, rows[..i]).0, true)
    ensures f(rows[i]).Some? ==>
      Processed(f, rows[..i + 1]) == (Processed(f, rows[..i]).0 + [f(rows[i]).value], false)
  {
    assert rows[..i + 1][..i] == rows[..i] && rows[..i + 1][i] == rows[i];
  }

  /** The values of the rows that do not raise, in file order. */
  function Good<R, T>(f: R -> Option<T>, rows: seq<R>): (r: seq<T>)
    ensures |r| <= |rows|
    decreases |rows|
  {
    if rows == [] then []
    else
      var p := Good(f, rows[..|rows| - 1]);
      match f(rows[|rows| - 1])
      case None => p
      case Some(t) => p + [t]
  }

  /** The number of rows that raise. */
  function Bad<R, T>(f: R -> Option<T>, rows: seq<R>): (r: nat)
    ensures r + |Good(f, rows)| == |rows|
    decreases |rows|
  {
    if rows == [] then 0
    else Bad(f, rows[..|rows| - 1]) + (if f(rows[|rows| - 1]).None? then 1 else 0)
  }

  lemma GoodSnoc<R, T>(f: R -> Option<T>, rows: seq<R>, i: nat)
    requires i < |rows|
    ensures Good(f, rows[..i + 1]) == Good(f, rows[..i]) + (if f(rows[i]).Some? then [f(rows[i]).value] else [])
    ensures Bad(f, rows[..i + 1]) == Bad(f, rows[..i]) + (if f(rows[i]).None? then 1 else 0)
  {
    assert rows[..i + 1][..i] == rows[..i] && rows[..i + 1][i] == rows[i];
  }

  /**
   * The good values are exactly the converted rows that do not raise:
   * every good value comes from some row, in order, and no raising row
   * contributes one.  When no row raises, they are all the rows.
   */
  lemma {:induction false} GoodWhenNoneRaise<R, T>(f: R -> Option<T>, rows: seq<R>)
    requires forall j :: 0 <= j < |rows| ==> f(rows[j]).Some?
    ensures Good(f, rows) == Processed(f, rows).0 && Bad(f, rows) == 0
    decreases |rows|
  {
    if rows != [] {
      var front := rows[..|rows| - 1];
      assert forall j :: 0 <= j < |front| ==> front[j] == rows[j];
      GoodWhenNoneRaise(f, front);
      ProcessedMeaning(f, front);
    }
  }

  /** The number of leading successes among the first `n` attempts. */
  function Leading(ok: nat -> bool, n: nat): (r: nat)
    ensures r <= n && (forall j :: 0 <= j < r ==> ok(j)) && (r < n ==> !ok(r))
  {
    if n == 0 then 0
    else
      var p := Leading(ok, n - 1);
      if p < n - 1 then p else if ok(n - 1) then n else n - 1
  }

  lemma LeadingAll(ok: nat -> bool, n: nat)
    requires forall j :: 0 <= j < n ==> ok(j)
    ensures Leading(ok, n) == n
  {
  }

  lemma LeadingStops(ok: nat -> bool, n: nat, m: nat)
    requires m < n && (forall j :: 0 <= j < m ==> ok(j)) && !ok(m)
    ensures Leading(ok, n) == m
  {
  }
}
