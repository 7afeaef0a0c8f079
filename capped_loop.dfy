/**
 * The row loops of the prediction importers that count failing rows and
 * give up once the count passes a cap (`if error_count > cap: break`).
 *
 * A row's conversion is a function from the row to its value, `None`
 * standing for the exception it raises; a database statement is an
 * oracle `ok(k)` saying whether the `k`-th statement of the run succeeds.
 */
module CappedLoop {
  import opened Wrappers
  import opened RowStream

  /**
   * The number of rows the loop reads: it stops right after the row that
   * brings the failure count `Failures` of the rows read above `cap`.
   * `fails(i)` is the failure count after the first `i` rows.
   */
  function ConsumedFrom(fails: nat -> nat, n: nat, cap: nat, i: nat): (c: nat)
    requires i <= n
    ensures i <= c <= n
    decreases n - i
  {
    if i == n then n else if fails(i + 1) > cap then i + 1 else ConsumedFrom(fails, n, cap, i + 1)
  }

  /** Before the stop every prefix is within the cap; at a stop before the end the cap is passed. */
  lemma {:induction false} ConsumedFromMeaning(fails: nat -> nat, n: nat, cap: nat, i: nat)
    requires i <= n && fails(i) <= cap
    ensures var c := ConsumedFrom(fails, n, cap, i);
      && (forall j :: i <= j < c ==> fails(j) <= cap)
      && (c < n ==> fails(c) > cap)
    decreases n - i
  {
    if i < n && fails(i + 1) <= cap {
      ConsumedFromMeaning(fails, n, cap, i + 1);
    }
  }

  // ---------------------------------------------------------------------
  // One statement per row, one commit at the end (import_predictions_sds.py)
  // ---------------------------------------------------------------------

  /** The outcome of row `i`: its value when it converts and its INSERT succeeds, else None. */
  function Attempt<R, T>(process: R -> Option<T>, ok: nat -> bool, rows: seq<R>, i: nat): Option<T>
    requires i < |rows|
  {
    if process(rows[i]).Some? && ok(i) then process(rows[i]) else None
  }

  /** The outcomes of all rows, in file order. */
  function Attempts<R, T>(process: R -> Option<T>, ok: nat -> bool, rows: seq<R>): (r: seq<Option<T>>)
    ensures |r| == |rows|
    ensures forall i :: 0 <= i < |rows| ==> r[i] == Attempt(process, ok, rows, i)
  {
    seq(|rows|, i requires 0 <= i < |rows| => Attempt(process, ok, rows, i))
  }

  function Id<T>(o: Option<T>): Option<T> {
    o
  }

  /** The failure count after the first `i` outcomes. */
  function FailCount<T>(outs: seq<Option<T>>): nat -> nat {
    (i: nat) => if i <= |outs| then Bad(Id, outs[..i]) else 0
  }

  /** The number of rows the per-row loop reads before it stops. */
  function Consumed<T>(outs: seq<Option<T>>, cap: nat): nat {
    ConsumedFrom(FailCount(outs), |outs|, cap, 0)
  }

  /**
   * The loop of `import_csv_data`: each row is converted and inserted on
   * its own; a row that raises or whose INSERT fails counts as an error,
   * and the loop breaks once the errors exceed `cap`.  `inserted` is what
   * the single commit after the loop makes permanent.
   */
  method InsertEach<R, T>(process: R -> Option<T>, ok: nat -> bool, rows: seq<R>, cap: nat)
    returns (inserted: seq<T>, successCount: nat, errorCount: nat)
    ensures var outs := Attempts(process, ok, rows); var n := Consumed(outs, cap);
      && inserted == Good(Id, outs[..n])
      && errorCount == Bad(Id, outs[..n])
    ensures successCount == |inserted|
  {
    ghost var outs := Attempts(process, ok, rows);
    inserted, successCount, errorCount := [], 0, 0;
    var i := 0;
    while i < |rows|
      invariant i <= |rows| && errorCount <= cap
      invariant Consumed(outs, cap) == ConsumedFrom(FailCount(outs), |outs|, cap, i)
      invariant inserted == Good(Id, outs[..i]) && errorCount == Bad(Id, outs[..i])
      invariant successCount == |inserted|
    {
      GoodSnoc(Id, outs, i);
      var data := process(rows[i]);
      if data.Some? && ok(i) {
        inserted := inserted + [data.value];
        successCount := successCount + 1;
      } else {
        errorCount := errorCount + 1;
      }
      i := i + 1;
      if errorCount > cap {
        break;
      }
    }
  }

  /** The loop reads rows until the errors pass the cap: then exactly `cap + 1` rows have failed. */
  lemma InsertEachStops<T>(outs: seq<Option<T>>, cap: nat)
    ensures var n := Consumed(outs, cap);
      && n <= |outs|
      && (forall j :: 0 <= j < n ==> Bad(Id, outs[..j]) <= cap)
      && (n < |outs| ==> Bad(Id, outs[..n]) == cap + 1)
  {
    var f := FailCount(outs);
    ConsumedFromMeaning(f, |outs|, cap, 0);
    var n := Consumed(outs, cap);
    assert forall j :: 0 <= j <= n ==> f(j) == Bad(Id, outs[..j]);
    if n < |outs| {
      assert n >= 1;
      assert f(n - 1) <= cap;
      GoodSnoc(Id, outs, n - 1);
    }
  }

  /** Without failures every row is read, converted and inserted, in file order. */
  lemma {:induction false} InsertEachClean<R, T>(process: R -> Option<T>, ok: nat -> bool, rows: seq<R>, cap: nat)
    requires forall i :: 0 <= i < |rows| ==> process(rows[i]).Some? && ok(i)
    ensures var outs := Attempts(process, ok, rows);
      && Consumed(outs, cap) == |rows|
      && Good(Id, outs) == Good(process, rows) && Bad(Id, outs) == 0
  {
    var outs := Attempts(process, ok, rows);
    var f := FailCount(outs);
    ConsumedFromMeaning(f, |outs|, cap, 0);
    NoBad(outs, |outs|);
    assert outs[..|outs|] == outs;
    SameGood(process, ok, rows, |rows|);
    assert rows[..|rows|] == rows;
  }

  /**
   * When every row fails, nothing is inserted and the loop stops after
   * `cap + 1` rows, or at the end of a shorter file.
   */
  lemma NothingConverts<R, T>(process: R -> Option<T>, ok: nat -> bool, rows: seq<R>, cap: nat)
    requires forall j :: 0 <= j < |rows| ==> process(rows[j]).None?
    ensures var outs := Attempts(process, ok, rows); var n := Consumed(outs, cap);
      && Good(Id, outs[..n]) == [] && Bad(Id, outs[..n]) == n
      && n == (if |rows| <= cap + 1 then |rows| else cap + 1)
  {
    var outs := Attempts(process, ok, rows);
    AllFail(outs, |outs|);
    InsertEachStops(outs, cap);
    if |outs| > cap + 1 {
      assert Bad(Id, outs[..cap + 1]) == cap + 1;
    }
  }

  /**
   * Stopping at the first failing row: no row fails exactly when every
   * row converts and its statement succeeds, and then every row's value
   * is kept, in file order.
   */
  lemma FirstFailure<R, T>(process: R -> Option<T>, ok: nat -> bool, rows: seq<R>)
    ensures var p := Processed(Id, Attempts(process, ok, rows));
      && (!p.1 <==> forall j :: 0 <= j < |rows| ==> process(rows[j]).Some? && ok(j))
      && (!p.1 ==> |p.0| == |rows| && forall j :: 0 <= j < |rows| ==> p.0[j] == process(rows[j]).value)
  {
    var outs := Attempts(process, ok, rows);
    ProcessedMeaning(Id, outs);
    assert forall j :: 0 <= j < |rows| ==> (Id(outs[j]).Some? <==> process(rows[j]).Some? && ok(j));
    assert forall j :: 0 <= j < |rows| && Id(outs[j]).Some? ==> Id(outs[j]).value == process(rows[j]).value;
  }

  lemma {:induction false} AllFail<T>(outs: seq<Option<T>>, k: nat)
    requires k <= |outs| && forall i :: 0 <= i < |outs| ==> outs[i].None?
    ensures forall j :: 0 <= j <= k ==> Bad(Id, outs[..j]) == j && Good(Id, outs[..j]) == []
    decreases k
  {
    if k > 0 {
      AllFail(outs, k - 1);
      GoodSnoc(Id, outs, k - 1);
    }
  }

  lemma {:induction false} NoBad<T>(outs: seq<Option<T>>, k: nat)
    requires k <= |outs| && forall i :: 0 <= i < |outs| ==> outs[i].Some?
    ensures forall j :: 0 <= j <= k ==> Bad(Id, outs[..j]) == 0
    decreases k
  {
    if k > 0 {
      NoBad(outs, k - 1);
      GoodSnoc(Id, outs, k - 1);
    }
  }

  lemma {:induction false} SameGood<R, T>(process: R -> Option<T>, ok: nat -> bool, rows: seq<R>, k: nat)
    requires k <= |rows| && forall i :: 0 <= i < |rows| ==> process(rows[i]).Some? && ok(i)
    ensures Good(Id, Attempts(process, ok, rows)[..k]) == Good(process, rows[..k])
    decreases k
  {
    if k > 0 {
      SameGood(process, ok, rows, k - 1);
      GoodSnoc(Id, Attempts(process, ok, rows), k - 1);
      GoodSnoc(process, rows, k - 1);
    }
  }

  // ---------------------------------------------------------------------
  // executemany batches inside the per-row try
  // (import_proposals_predictions_bulk*.py)
  // ---------------------------------------------------------------------

  /**
   * The loop state: rows committed by successful batches, the pending
   * batch, the error count, the number of `executemany` calls made, and
   * whether the loop has broken out.
   */
  datatype State<T> = State(committed: seq<T>, batch: seq<T>, errors: nat, calls: nat, stopped: bool)

  /**
   * One row: a row that raises counts an error; otherwise its value joins
   * the batch and, once the batch holds `size` or more values, the batch is
   * sent.  A batch that fails also counts an error and is KEPT, so the next
   * good row sends it again, one value larger.
   */
  function Step<T>(s: State<T>, d: Option<T>, ok: nat -> bool, cap: nat, size: nat): (r: State<T>)
    ensures r.committed + r.batch == s.committed + s.batch + (if d.Some? then [d.value] else [])
    ensures r.errors == s.errors || r.errors == s.errors + 1
    ensures r.stopped <==> r.errors > cap
  {
    match d
    case None => State(s.committed, s.batch, s.errors + 1, s.calls, s.errors + 1 > cap)
    case Some(v) =>
      var b := s.batch + [v];
      if |b| < size then State(s.committed, b, s.errors, s.calls, s.errors > cap)
      else if ok(s.calls) then State(s.committed + b, [], s.errors, s.calls + 1, s.errors > cap)
      else State(s.committed, b, s.errors + 1, s.calls + 1, s.errors + 1 > cap)
  }

  /** The state after the rows, from `init`; nothing changes once the loop has stopped. */
  function Run<R, T>(process: R -> Option<T>, rows: seq<R>, ok: nat -> bool, cap: nat, size: nat, init: State<T>): State<T>
    decreases |rows|
  {
    if rows == [] then init
    else
      var s := Run(process, rows[..|rows| - 1], ok, cap, size, init);
      if s.stopped then s else Step(s, process(rows[|rows| - 1]), ok, cap, size)
  }

  function Empty<T>(): State<T> {
    State([], [], 0, 0, false)
  }

  lemma RunSnoc<R, T>(process: R -> Option<T>, rows: seq<R>, ok: nat -> bool, cap: nat, size: nat, i: nat)
    requires i < |rows|
    ensures var s := Run(process, rows[..i], ok, cap, size, Empty());
      Run(process, rows[..i + 1], ok, cap, size, Empty()) == if s.stopped then s else Step(s, process(rows[i]), ok, cap, size)
  {
    assert rows[..i + 1][..i] == rows[..i] && rows[..i + 1][i] == rows[i];
  }

  /** A stopped run ignores the rows after it. */
  lemma {:induction false} RunStopped<R, T>(process: R -> Option<T>, rows: seq<R>, ok: nat -> bool, cap: nat, size: nat, i: nat)
    requires i <= |rows| && Run(process, rows[..i], ok, cap, size, Empty()).stopped
    ensures Run(process, rows, ok, cap, size, Empty()) == Run(process, rows[..i], ok, cap, size, Empty())
    decreases |rows| - i
  {
    if i < |rows| {
      RunSnoc(process, rows, ok, cap, size, i);
      RunStopped(process, rows, ok, cap, size, i + 1);
    } else {
      assert rows[..i] == rows;
    }
  }

  /**
   * The row loop of `import_csv_to_database`, for any converter: breaks
   * out when the errors pass `cap`.  The pending batch after the loop is
   * left to the caller.
   */
  method BatchLoop<R, T>(process: R -> Option<T>, rows: seq<R>, ok: nat -> bool, cap: nat, size: nat)
    returns (s: State<T>, successCount: nat)
    ensures s == Run(process, rows, ok, cap, size, Empty())
    ensures successCount == |s.committed|
  {
    var committed: seq<T>, batch: seq<T> := [], [];
    var errors, calls: nat := 0, 0;
    successCount := 0;
    var i := 0;
    while i < |rows|
      invariant i <= |rows| && errors <= cap
      invariant Run(process, rows[..i], ok, cap, size, Empty()) == State(committed, batch, errors, calls, false)
      invariant successCount == |committed|
    {
      RunSnoc(process, rows, ok, cap, size, i);
      var data := process(rows[i]);
      if data.None? {
        errors := errors + 1;
      } else {
        batch := batch + [data.value];
        if |batch| >= size {
          if ok(calls) {
            committed := committed + batch;
            successCount := successCount + |batch|;
            batch := [];
          } else {
            errors := errors + 1;
          }
          calls := calls + 1;
        }
      }
      i := i + 1;
      if errors > cap {
        RunStopped(process, rows, ok, cap, size, i);
        return State(committed, batch, errors, calls, true), successCount;
      }
    }
    assert rows[..i] == rows;
    s := State(committed, batch, errors, calls, false);
  }

  /** The number of failing calls among the first `n`. */
  function FailedCalls(ok: nat -> bool, n: nat): (r: nat)
    ensures r <= n
  {
    if n == 0 then 0 else FailedCalls(ok, n - 1) + (if ok(n - 1) then 0 else 1)
  }

  /**
   * What the loop keeps: the committed rows followed by the pending batch
   * are the good rows' values in file order, all of them unless the loop
   * stopped early; the errors are the rows that raised plus the failed
   * batches, the loop stops exactly when they pass `cap`, and then there
   * are `cap + 1` of them.  While no call has failed the pending batch is
   * shorter than a full one.
   */
  lemma {:induction false} RunMeaning<R, T>(process: R -> Option<T>, rows: seq<R>, ok: nat -> bool, cap: nat, size: nat)
    ensures var s := Run(process, rows, ok, cap, size, Empty());
      && s.committed + s.batch <= Good(process, rows)
      && (!s.stopped ==> s.committed + s.batch == Good(process, rows))
      && s.errors <= Bad(process, rows) + FailedCalls(ok, s.calls)
      && (!s.stopped ==> s.errors == Bad(process, rows) + FailedCalls(ok, s.calls))
      && (s.stopped <==> s.errors > cap) && s.errors <= cap + 1
      && (size > 0 && FailedCalls(ok, s.calls) == 0 ==> |s.batch| < size)
    decreases |rows|
  {
    if rows != [] {
      var front := rows[..|rows| - 1];
      RunMeaning(process, front, ok, cap, size);
    }
  }

  /** When every row converts and every batch goes in, nothing stops the loop and every value is kept, in file order. */
  lemma CleanRun<R, T>(process: R -> Option<T>, rows: seq<R>, ok: nat -> bool, cap: nat, size: nat)
    requires forall j :: 0 <= j < |rows| ==> process(rows[j]).Some?
    requires forall k :: ok(k)
    ensures var s := Run(process, rows, ok, cap, size, Empty());
      && !s.stopped && s.errors == 0 && s.committed + s.batch == Processed(process, rows).0
  {
    var s := Run(process, rows, ok, cap, size, Empty());
    RunMeaning(process, rows, ok, cap, size);
    NoFailedCalls(ok, s.calls);
    GoodWhenNoneRaise(process, rows);
  }

  lemma {:induction false} NoFailedCalls(ok: nat -> bool, n: nat)
    requires forall k :: ok(k)
    ensures FailedCalls(ok, n) == 0
  {
    if n > 0 {
      NoFailedCalls(ok, n - 1);
    }
  }

  /**
   * The end of `import_csv_to_database` once the loop is over: a pending
   * batch goes out with the next call, and a failure there escapes to the
   * outer handler, which returns False.  The result and the rows in the
   * table.
   */
  function Flush<T>(s: State<T>, ok: nat -> bool): (r: (bool, seq<T>))
    ensures r.0 ==> r.1 == s.committed + s.batch
    ensures !r.0 ==> r.1 == s.committed && s.batch != []
  {
    if s.batch == [] then (true, s.committed)
    else if ok(s.calls) then (true, s.committed + s.batch)
    else (false, s.committed)
  }
}
