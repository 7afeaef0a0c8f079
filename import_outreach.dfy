/**
 * import_outreach.py: loads a CSV export into the `outreach` table, or
 * copies `proxy.outreach` into another database, in batches of 1000 with
 * row-by-row recovery when a batch hits the unique key
 * `(account_hash_key, proposal_master_skey, director_master_skey)`.
 *
 * The table is the sequence of its rows.  Under MySQL's unique-index
 * rules two rows collide only when all three key parts are equal and
 * none is NULL.  `executemany` either inserts the whole batch or, after
 * the rollback, nothing; a failure other than a duplicate key, there or in
 * the recovery loop, ends the import with False.
 */
module Outreach {
  import opened Wrappers
  import opened PyText
  import opened PyNum
  import opened Batching

  const BatchSize: nat := 1000

  /** What a `safe_*` converter gives: a value or None, or the OverflowError that escapes it. */
  datatype Conversion = Converted(value: Option<int>) | RaisesOverflow

  /** `not value or value.strip() == ''`: missing, empty or all whitespace. */
  predicate Blank(v: Option<string>) {
    v.None? || Strip(v.value) == []
  }

  /** `int(float(value))` with ValueError caught and OverflowError not. */
  function IntOfFloatCaught(s: string): Conversion {
    match IntOfFloatString(s)
    case IntOk(n) => Converted(Some(n))
    case ValueErr => Converted(None)
    case OverflowErr => RaisesOverflow
  }

  /** `safe_int`; `safe_bigint` has the same body. */
  function SafeInt(v: Option<string>): Conversion {
    if Blank(v) || Strip(v.value) == "-1" then Converted(None) else IntOfFloatCaught(v.value)
  }

  function Clamp(n: int): int {
    if n < 0 then 0 else if n > 255 then 255 else n
  }

  /** `safe_tinyint`: `max(0, min(255, int(float(value))))`, with no special case for `'-1'`. */
  function SafeTinyint(v: Option<string>): Conversion {
    if Blank(v) then Converted(None)
    else match IntOfFloatCaught(v.value)
      case Converted(n) => Converted(if n.Some? then Some(Clamp(n.value)) else None)
      case RaisesOverflow => RaisesOverflow
  }

  lemma MinusOneText(n: int)
    ensures IntToString(n) == "-1" <==> n == -1
  {
    var s := IntToString(n);
    if n < 0 {
      assert s[1..] == NatToString(-n);
      if s == "-1" {
        assert NatToString(-n) == "1";
        assert DecValue("1") == 1;
      }
    } else {
      assert s == NatToString(n);
      assert IsDigit(s[0]);
    }
  }

  /** A rendered integer reads back as itself, except `-1`, which reads as None. */
  lemma SafeIntOfInteger(n: int)
    ensures SafeInt(Some(IntToString(n))) == Converted(if n == -1 then None else Some(n))
  {
    var s := IntToString(n);
    MinusOneText(n);
    IntegerReads(n);
    assert !Blank(Some(s)) && Strip(s) == s && IntOfFloatCaught(s) == Converted(Some(n));
    assert SafeInt(Some(s)) == if s == "-1" then Converted(None) else Converted(Some(n));
  }

  lemma IntegerReads(n: int)
    ensures !Blank(Some(IntToString(n))) && Strip(IntToString(n)) == IntToString(n)
    ensures IntOfFloatCaught(IntToString(n)) == Converted(Some(n))
  {
    IntToStringParts(n);
    ParseFloatOfIntString(n);
  }

  /** `safe_tinyint` clamps a rendered integer into [0, 255], so `-1` gives 0. */
  lemma SafeTinyintOfInteger(n: int)
    ensures SafeTinyint(Some(IntToString(n))) == Converted(Some(Clamp(n)))
    ensures 0 <= Clamp(n) <= 255 && (0 <= n <= 255 ==> Clamp(n) == n)
  {
    var s := IntToString(n);
    IntegerReads(n);
    assert !Blank(Some(s)) && IntOfFloatCaught(s) == Converted(Some(n));
  }

  /** Missing, empty and whitespace-only values give None in both converters. */
  lemma BlankIsNone(v: Option<string>)
    requires v.None? || AllSpace(v.value)
    ensures SafeInt(v) == Converted(None) && SafeTinyint(v) == Converted(None)
  {
  }

  /** The optional text of `row.get(k) or None`. */
  function Get(row: map<string, string>, k: string): Option<string> {
    if k in row then Some(row[k]) else None
  }

  function OrNone(v: Option<string>): Option<string> {
    if v == Some("") then None else v
  }

  /**
   * A row of the `outreach` table.  The DECIMAL columns keep their text:
   * `safe_float` is not modelled.
   */
  datatype Record = Record(
    rowIndex: Option<int>, unnamedCol: Option<string>, hash: string,
    proposal: Option<int>, director: Option<int>, accountType: Option<string>,
    shares: Option<string>, rank: Option<int>, score: Option<string>,
    prediction: Option<int>, target: Option<int>)

  /** `process_row_data`; `None` when one of the converters raises OverflowError. */
  function ProcessRowData(row: map<string, string>): (r: Option<Record>)
    ensures r.Some? ==> r.value.hash == (if "account_hash_key" in row then row["account_hash_key"] else "")
  {
    var ri := SafeInt(Get(row, "row_index"));
    var pm := SafeInt(Get(row, "proposal_master_skey"));
    var dm := SafeInt(Get(row, "director_master_skey"));
    var rk := SafeInt(Get(row, "rank_of_shareholding"));
    var pr := SafeTinyint(Get(row, "prediction_model1"));
    var te := SafeInt(Get(row, "Target_encoded"));
    if ri.RaisesOverflow? || pm.RaisesOverflow? || dm.RaisesOverflow? || rk.RaisesOverflow?
       || pr.RaisesOverflow? || te.RaisesOverflow? then None
    else
      var hash := if "account_hash_key" in row then row["account_hash_key"] else "";
      Some(Record(ri.value, OrNone(Get(row, "unnamed_col")), hash, pm.value, dm.value,
                  OrNone(Get(row, "account_type")), Get(row, "shares_summable"), rk.value,
                  Get(row, "score_model1"), pr.value, te.value))
  }

  // ---------------------------------------------------------------
  // The table, its unique key and the rows the server refuses
  // ---------------------------------------------------------------

  /**
   * A failure of one row that comes from its column data rather than the
   * unique key: an IntegrityError without "Duplicate entry" in its text
   * (a NULL in a NOT NULL column, say), or any other database error (a
   * value out of range, say).
   */
  datatype Fault = NoFault | IntegrityFault | OtherFault

  /**
   * What the server decides on its own.  `sameHash` says whether the
   * collation of `account_hash_key` equates two texts (utf8mb4_unicode_ci
   * ignores letter case and trailing spaces); `fault` is the data fault of
   * a row.
   */
  datatype Db = Db(sameHash: (string, string) -> bool, fault: Record -> Fault)

  /** The unique index rejects `b` next to `a`: equal key parts and no NULL among them. */
  predicate Collide(db: Db, a: Record, b: Record) {
    db.sameHash(a.hash, b.hash) && a.proposal.Some? && a.proposal == b.proposal && a.director.Some? && a.director == b.director
  }

  predicate Fits(db: Db, table: seq<Record>, x: Record) {
    forall k :: 0 <= k < |table| ==> !Collide(db, table[k], x)
  }

  predicate Unique(db: Db, table: seq<Record>) {
    forall i, j :: 0 <= i < j < |table| ==> !Collide(db, table[i], table[j])
  }

  predicate FaultFree(db: Db, rows: seq<Record>) {
    forall k :: 0 <= k < |rows| ==> db.fault(rows[k]).NoFault?
  }

  /** Some row has a fault that is not an IntegrityError. */
  predicate SomeOtherFault(db: Db, rows: seq<Record>) {
    exists k :: 0 <= k < |rows| && db.fault(rows[k]).OtherFault?
  }

  /** A row with a NULL key part never collides, whatever the table holds. */
  lemma NullNeverCollides(db: Db, table: seq<Record>, x: Record)
    requires x.proposal.None? || x.director.None?
    ensures Fits(db, table, x)
  {
  }

  lemma UniqueSnoc(db: Db, table: seq<Record>, x: Record)
    requires Unique(db, table) && Fits(db, table, x)
    ensures Unique(db, table + [x])
  {
  }

  lemma UniqueSnocIff(db: Db, s: seq<Record>, x: Record)
    ensures Unique(db, s + [x]) <==> Unique(db, s) && Fits(db, s, x)
  {
    if Unique(db, s + [x]) {
      forall i, j | 0 <= i < j < |s|
        ensures !Collide(db, s[i], s[j])
      {
        assert (s + [x])[i] == s[i] && (s + [x])[j] == s[j];
      }
      forall k | 0 <= k < |s|
        ensures !Collide(db, s[k], x)
      {
        assert (s + [x])[k] == s[k] && (s + [x])[|s|] == x;
      }
    }
  }

  lemma FaultsSnoc(db: Db, s: seq<Record>, x: Record)
    ensures FaultFree(db, s + [x]) <==> FaultFree(db, s) && db.fault(x).NoFault?
    ensures SomeOtherFault(db, s + [x]) <==> SomeOtherFault(db, s) || db.fault(x).OtherFault?
  {
    assert forall k :: 0 <= k < |s| ==> (s + [x])[k] == s[k];
    assert (s + [x])[|s|] == x;
    if SomeOtherFault(db, s + [x]) {
      var k :| 0 <= k < |s + [x]| && db.fault((s + [x])[k]).OtherFault?;
      if k < |s| {
        assert db.fault(s[k]).OtherFault?;
      }
    }
  }

  lemma FaultsAppend(db: Db, a: seq<Record>, b: seq<Record>)
    ensures FaultFree(db, a + b) <==> FaultFree(db, a) && FaultFree(db, b)
    ensures SomeOtherFault(db, a + b) <==> SomeOtherFault(db, a) || SomeOtherFault(db, b)
  {
    assert forall k :: 0 <= k < |a| ==> (a + b)[k] == a[k];
    assert forall k :: 0 <= k < |b| ==> (a + b)[|a| + k] == b[k];
    if SomeOtherFault(db, a + b) {
      var k :| 0 <= k < |a + b| && db.fault((a + b)[k]).OtherFault?;
      if k < |a| {
        assert db.fault(a[k]).OtherFault?;
      } else {
        assert db.fault(b[k - |a|]).OtherFault?;
      }
    }
    if SomeOtherFault(db, b) {
      var k :| 0 <= k < |b| && db.fault(b[k]).OtherFault?;
      assert db.fault((a + b)[|a| + k]).OtherFault?;
    }
  }

  /** What one INSERT meets: a data fault is reported before the unique key is checked. */
  datatype RowOutcome = Accepted | DuplicateEntry | OtherIntegrityError | OtherError

  function Outcome(db: Db, table: seq<Record>, x: Record): (o: RowOutcome)
    ensures o.Accepted? <==> db.fault(x).NoFault? && Fits(db, table, x)
    ensures o.OtherError? <==> db.fault(x).OtherFault?
  {
    match db.fault(x)
    case IntegrityFault => OtherIntegrityError
    case OtherFault => OtherError
    case NoFault => if Fits(db, table, x) then Accepted else DuplicateEntry
  }

  /** The result of `cursor.executemany`: every row stored, or the error of the first row that fails. */
  datatype ManyResult = AllStored(t: seq<Record>) | FirstFailure(o: RowOutcome)

  /** `cursor.executemany` of a batch: all rows, or after the rollback none. */
  function InsertMany(db: Db, table: seq<Record>, batch: seq<Record>): (r: ManyResult)
    ensures r.FirstFailure? ==> !r.o.Accepted?
    decreases |batch|
  {
    if batch == [] then AllStored(table)
    else match InsertMany(db, table, batch[..|batch| - 1])
      case FirstFailure(o) => FirstFailure(o)
      case AllStored(t) =>
        var x := batch[|batch| - 1];
        var o := Outcome(db, t, x);
        if o.Accepted? then AllStored(t + [x]) else FirstFailure(o)
  }

  /**
   * A batch is stored exactly when no row has a data fault and the table
   * with the batch appended still has unique keys; it is then appended.
   */
  lemma {:induction false} InsertManyMeaning(db: Db, table: seq<Record>, batch: seq<Record>)
    requires Unique(db, table)
    ensures InsertMany(db, table, batch).AllStored? <==> FaultFree(db, batch) && Unique(db, table + batch)
    ensures InsertMany(db, table, batch).AllStored? ==> InsertMany(db, table, batch).t == table + batch
    decreases |batch|
  {
    if batch != [] {
      var n := |batch| - 1;
      InsertManyMeaning(db, table, batch[..n]);
      assert table + batch == (table + batch[..n]) + [batch[n]];
      assert batch == batch[..n] + [batch[n]];
      UniqueSnocIff(db, table + batch[..n], batch[n]);
      FaultsSnoc(db, batch[..n], batch[n]);
    }
  }

  /** Without data faults, a batch that is not stored fails on the unique key. */
  lemma {:induction false} FaultFreeFailsOnKey(db: Db, table: seq<Record>, batch: seq<Record>)
    requires FaultFree(db, batch) && InsertMany(db, table, batch).FirstFailure?
    ensures InsertMany(db, table, batch).o == DuplicateEntry
    decreases |batch|
  {
    var n := |batch| - 1;
    assert batch == batch[..n] + [batch[n]];
    FaultsSnoc(db, batch[..n], batch[n]);
    if InsertMany(db, table, batch[..n]).FirstFailure? {
      FaultFreeFailsOnKey(db, table, batch[..n]);
    }
  }

  /** The record of a run of inserts: the table after it, the rows counted as duplicates, and whether it raised. */
  datatype Tally = Tally(table: seq<Record>, duplicates: nat, raised: bool)

  /**
   * The recovery loop: each row on its own, counting the ones an
   * IntegrityError rejects; any other error raises and ends the loop, with
   * the rows before it committed.
   */
  function OneByOne(db: Db, table: seq<Record>, batch: seq<Record>): Tally
    decreases |batch|
  {
    if batch == [] then Tally(table, 0, false)
    else
      var r := OneByOne(db, table, batch[..|batch| - 1]);
      if r.raised then r
      else
        var x := batch[|batch| - 1];
        match Outcome(db, r.table, x)
        case Accepted => Tally(r.table + [x], r.duplicates, false)
        case OtherError => Tally(r.table, r.duplicates, true)
        case _ => Tally(r.table, r.duplicates + 1, false)
  }

  /**
   * Row-by-row insertion only appends and keeps the key unique; it raises
   * exactly when some row has a fault other than an IntegrityError, and
   * otherwise every row is either added or counted as a duplicate.
   */
  lemma {:induction false} OneByOneMeaning(db: Db, table: seq<Record>, batch: seq<Record>)
    requires Unique(db, table)
    ensures var r := OneByOne(db, table, batch);
      && Unique(db, r.table) && |table| <= |r.table| && r.table[..|table|] == table
      && (r.raised <==> SomeOtherFault(db, batch))
      && (!r.raised ==> |r.table| + r.duplicates == |table| + |batch|)
    decreases |batch|
  {
    if batch != [] {
      var n := |batch| - 1;
      OneByOneMeaning(db, table, batch[..n]);
      assert batch == batch[..n] + [batch[n]];
      FaultsSnoc(db, batch[..n], batch[n]);
      var r := OneByOne(db, table, batch[..n]);
      if !r.raised && Outcome(db, r.table, batch[n]).Accepted? {
        UniqueSnoc(db, r.table, batch[n]);
        assert (r.table + [batch[n]])[..|table|] == r.table[..|table|];
      }
    }
  }

  /** Once the recovery loop has raised, the rows after are never tried. */
  lemma {:induction false} OneByOneAfterRaise(db: Db, table: seq<Record>, batch: seq<Record>, i: nat)
    requires i <= |batch| && OneByOne(db, table, batch[..i]).raised
    ensures OneByOne(db, table, batch) == OneByOne(db, table, batch[..i])
    decreases |batch| - i
  {
    if i < |batch| {
      assert batch[..i + 1][..i] == batch[..i];
      OneByOneAfterRaise(db, table, batch, i + 1);
    } else {
      assert batch[..i] == batch;
    }
  }

  /** When the batch as a whole is stored, row-by-row insertion would store every row. */
  lemma {:induction false} ManyAgreesWithOneByOne(db: Db, table: seq<Record>, batch: seq<Record>)
    requires InsertMany(db, table, batch).AllStored?
    ensures OneByOne(db, table, batch) == Tally(InsertMany(db, table, batch).t, 0, false)
    decreases |batch|
  {
    if batch != [] {
      ManyAgreesWithOneByOne(db, table, batch[..|batch| - 1]);
    }
  }

  /**
   * A batch executed with duplicate recovery.  A "Duplicate entry" error
   * starts the recovery loop; any other error of `executemany` is raised
   * again, after the batch was rolled back.
   */
  function Flush(db: Db, table: seq<Record>, batch: seq<Record>): Tally {
    match InsertMany(db, table, batch)
    case AllStored(t) => Tally(t, 0, false)
    case FirstFailure(o) => if o == DuplicateEntry then OneByOne(db, table, batch) else Tally(table, 0, true)
  }

  /**
   * A batch with recovery keeps the key unique and the earlier rows; a
   * batch without data faults never raises and one with a fault other than
   * an IntegrityError always does; when it does not raise, every row is
   * inserted or counted as a duplicate.
   */
  lemma FlushMeaning(db: Db, table: seq<Record>, batch: seq<Record>)
    requires Unique(db, table)
    ensures var r := Flush(db, table, batch);
      && Unique(db, r.table) && |table| <= |r.table| && r.table[..|table|] == table
      && (!r.raised ==> |r.table| + r.duplicates == |table| + |batch|)
      && (FaultFree(db, batch) ==> !r.raised)
      && (SomeOtherFault(db, batch) ==> r.raised)
  {
    OneByOneMeaning(db, table, batch);
    InsertManyMeaning(db, table, batch);
    if FaultFree(db, batch) && InsertMany(db, table, batch).FirstFailure? {
      FaultFreeFailsOnKey(db, table, batch);
      assert !SomeOtherFault(db, batch);
    }
    if SomeOtherFault(db, batch) {
      var k :| 0 <= k < |batch| && db.fault(batch[k]).OtherFault?;
      assert !FaultFree(db, batch);
    }
  }

  /** The batches executed in order from `table0`, until one raises. */
  function FlushAll(db: Db, table0: seq<Record>, bs: seq<seq<Record>>): Tally
    decreases |bs|
  {
    if bs == [] then Tally(table0, 0, false)
    else
      var r := FlushAll(db, table0, bs[..|bs| - 1]);
      if r.raised then r
      else
        var r2 := Flush(db, r.table, bs[|bs| - 1]);
        Tally(r2.table, r.duplicates + r2.duplicates, r2.raised)
  }

  /**
   * Over all batches: the key stays unique and existing rows stay; rows
   * without data faults never raise and a row with a fault other than an
   * IntegrityError always does; without a raise, the rows added are the
   * rows submitted minus the duplicates counted.
   */
  lemma {:induction false} FlushAllMeaning(db: Db, table0: seq<Record>, bs: seq<seq<Record>>)
    requires Unique(db, table0)
    ensures var r := FlushAll(db, table0, bs);
      && Unique(db, r.table) && |table0| <= |r.table| && r.table[..|table0|] == table0
      && (!r.raised ==> |r.table| + r.duplicates == |table0| + |Flatten(bs)|)
      && (FaultFree(db, Flatten(bs)) ==> !r.raised)
      && (SomeOtherFault(db, Flatten(bs)) ==> r.raised)
    decreases |bs|
  {
    if bs != [] {
      var n := |bs| - 1;
      FlushAllMeaning(db, table0, bs[..n]);
      FlattenSnoc(bs[..n], bs[n]);
      assert bs[..n] + [bs[n]] == bs;
      FaultsAppend(db, Flatten(bs[..n]), bs[n]);
      var r := FlushAll(db, table0, bs[..n]);
      if !r.raised {
        FlushMeaning(db, r.table, bs[n]);
        var t2 := Flush(db, r.table, bs[n]).table;
        assert t2[..|table0|] == r.table[..|table0|];
      }
    }
  }

  /** Once a batch has raised, the batches after it are never executed. */
  lemma {:induction false} FlushAllAfterRaise(db: Db, table0: seq<Record>, bs: seq<seq<Record>>, more: seq<seq<Record>>)
    requires FlushAll(db, table0, bs).raised
    ensures FlushAll(db, table0, bs + more) == FlushAll(db, table0, bs)
    decreases |more|
  {
    if more == [] {
      assert bs + more == bs;
    } else {
      var m := |more| - 1;
      FlushAllAfterRaise(db, table0, bs, more[..m]);
      var all := bs + more;
      assert all[..|all| - 1] == bs + more[..m];
    }
  }

  /** Executing a batch of fault-free rows with NULL key parts stores it whole. */
  lemma {:induction false} NullBatchHasNoDuplicates(db: Db, table: seq<Record>, batch: seq<Record>)
    requires FaultFree(db, batch)
    requires forall k :: 0 <= k < |batch| ==> batch[k].proposal.None? || batch[k].director.None?
    ensures InsertMany(db, table, batch) == AllStored(table + batch)
    ensures Flush(db, table, batch) == Tally(table + batch, 0, false)
    decreases |batch|
  {
    if batch != [] {
      var n := |batch| - 1;
      assert FaultFree(db, batch[..n]) by {
        assert forall k :: 0 <= k < n ==> batch[..n][k] == batch[k];
      }
      NullBatchHasNoDuplicates(db, table, batch[..n]);
      var x := batch[n];
      assert x.proposal.None? || x.director.None?;
      NullNeverCollides(db, table + batch[..n], x);
      assert InsertMany(db, table, batch) == AllStored(table + batch[..n] + [x]);
      assert table + batch[..n] + [batch[n]] == table + batch;
    } else {
      assert table + batch == table;
    }
  }

  // ---------------------------------------------------------------
  // The two loops
  // ---------------------------------------------------------------

  /** The inner recovery loop `for data_row in batch_data`. */
  method ExecuteEach(db: Db, table: seq<Record>, batch: seq<Record>) returns (t: seq<Record>, duplicates: nat, raised: bool)
    ensures Tally(t, duplicates, raised) == OneByOne(db, table, batch)
  {
    t, duplicates, raised := table, 0, false;
    var i := 0;
    while i < |batch|
      invariant i <= |batch|
      invariant Tally(t, duplicates, false) == OneByOne(db, table, batch[..i])
    {
      assert batch[..i + 1][..i] == batch[..i];
      var o := Outcome(db, t, batch[i]);
      if o == OtherError {
        OneByOneAfterRaise(db, table, batch, i + 1);
        return t, duplicates, true;
      } else if o == Accepted {
        t := t + [batch[i]];
      } else {
        duplicates := duplicates + 1;
      }
      i := i + 1;
    }
    assert batch[..i] == batch;
  }

  /** `executemany` with a fall-back to `ExecuteEach` on a duplicate-entry error. */
  method ExecuteBatch(db: Db, table: seq<Record>, batch: seq<Record>) returns (t: seq<Record>, duplicates: nat, raised: bool)
    ensures Tally(t, duplicates, raised) == Flush(db, table, batch)
  {
    var all := InsertMany(db, table, batch);
    if all.AllStored? {
      t, duplicates, raised := all.t, 0, false;
    } else if all.o == DuplicateEntry {
      t, duplicates, raised := ExecuteEach(db, table, batch);
    } else {
      t, duplicates, raised := table, 0, true;
    }
  }

  /** One batch executed with recovery, extending the record of batches executed so far. */
  method FlushStep(db: Db, ghost table0: seq<Record>, ghost done: seq<seq<Record>>,
                   table: seq<Record>, duplicates: nat, batch: seq<Record>)
    returns (t: seq<Record>, d: nat, raised: bool, ghost done': seq<seq<Record>>)
    requires Tally(table, duplicates, false) == FlushAll(db, table0, done)
    ensures done' == done + [batch] && Tally(t, d, raised) == FlushAll(db, table0, done')
  {
    var extra;
    t, extra, raised := ExecuteBatch(db, table, batch);
    d := duplicates + extra;
    done' := done + [batch];
    assert done'[..|done|] == done;
  }

  /**
   * The records `import_csv_to_database` batches from `rows`, and whether a
   * row raised: rows with an empty hash are skipped, and the first row
   * whose conversion raises ends the reading.
   */
  function Kept(rows: seq<map<string, string>>): (seq<Record>, bool)
    decreases |rows|
  {
    if rows == [] then ([], false)
    else
      var (kept, raised) := Kept(rows[..|rows| - 1]);
      if raised then (kept, true)
      else match ProcessRowData(rows[|rows| - 1])
        case None => (kept, true)
        case Some(rec) => (if rec.hash == "" then kept else kept + [rec], false)
  }

  lemma {:induction false} KeptAfterRaise(rows: seq<map<string, string>>, i: nat)
    requires i <= |rows| && Kept(rows[..i]).1
    ensures Kept(rows) == Kept(rows[..i])
    decreases |rows| - i
  {
    if i < |rows| {
      assert rows[..i + 1][..i] == rows[..i];
      KeptAfterRaise(rows, i + 1);
    } else {
      assert rows[..i] == rows;
    }
  }

  /** The records kept from a prefix of the rows begin the records kept from all of them. */
  lemma {:induction false} KeptPrefix(rows: seq<map<string, string>>, i: nat)
    requires i <= |rows|
    ensures var p := Kept(rows[..i]).0;
      |p| <= |Kept(rows).0| && Kept(rows).0[..|p|] == p
    decreases |rows| - i
  {
    if i < |rows| {
      assert rows[..i + 1][..i] == rows[..i];
      KeptPrefix(rows, i + 1);
      var p := Kept(rows[..i]).0;
      var q := Kept(rows[..i + 1]).0;
      assert |p| <= |q| && q[..|p|] == p;
      assert Kept(rows).0[..|q|][..|p|] == Kept(rows).0[..|p|];
    } else {
      assert rows[..i] == rows;
    }
  }

  /** No record with an empty hash is ever batched. */
  lemma {:induction false} KeptHaveHash(rows: seq<map<string, string>>)
    ensures forall k :: 0 <= k < |Kept(rows).0| ==> Kept(rows).0[k].hash != ""
    decreases |rows|
  {
    if rows != [] {
      KeptHaveHash(rows[..|rows| - 1]);
    }
  }

  /** The batches flushed so far and the pending one account for every kept record. */
  ghost predicate Progress(db: Db, table0: seq<Record>, kept: seq<Record>, flushed: seq<seq<Record>>, batch: seq<Record>,
                           table: seq<Record>, duplicates: nat, count: nat)
  {
    && Flatten(flushed) + batch == kept
    && FullSlices(flushed, BatchSize)
    && |batch| < BatchSize
    && count == |kept|
    && Tally(table, duplicates, false) == FlushAll(db, table0, flushed)
  }

  /** The records sent: all kept records or, after a raising row, those of the full batches. */
  function CommittedRows(kept: seq<Record>, raised: bool): (r: seq<Record>)
    ensures |r| <= |kept| && r == kept[..|r|]
  {
    if raised then kept[..|kept| - |kept| % BatchSize] else kept
  }

  /** The batches sent, in order. */
  function Committed(kept: seq<Record>, raised: bool): seq<seq<Record>> {
    Slices(CommittedRows(kept, raised), BatchSize)
  }

  /**
   * `import_csv_to_database` after the file check and the connection:
   * reads the rows, batches the kept records by 1000, and executes each
   * batch with duplicate recovery.  `rows` are the rows the reader yields
   * and `broken` says whether asking it for the next one then raises (a
   * decoding error, say).  A raising row, a raising reader or a batch that
   * raises ends the import with False after the rollback; what was
   * committed stays and the pending batch is lost.
   */
  method ImportCsvToDatabase(db: Db, fileExists: bool, connected: bool, rows: seq<map<string, string>>, broken: bool,
                             table0: seq<Record>)
    returns (ok: bool, table: seq<Record>, count: nat, duplicateCount: nat)
    ensures !fileExists || !connected ==> !ok && table == table0 && count == 0 && duplicateCount == 0
    ensures fileExists && connected ==>
      var raisedRead := Kept(rows).1 || broken;
      var r := FlushAll(db, table0, Committed(Kept(rows).0, raisedRead));
      && ok == (!raisedRead && !r.raised)
      && table == r.table && duplicateCount == r.duplicates
      && count <= |Kept(rows).0| && (!r.raised ==> count == |Kept(rows).0|)
  {
    table, count, duplicateCount := table0, 0, 0;
    if !fileExists || !connected {
      return false, table0, 0, 0;
    }
    var batch: seq<Record> := [];
    ghost var flushed: seq<seq<Record>> := [];
    var i := 0;
    while i < |rows|
      invariant i <= |rows| && !Kept(rows[..i]).1
      invariant Progress(db, table0, Kept(rows[..i]).0, flushed, batch, table, duplicateCount, count)
    {
      assert rows[..i + 1][..i] == rows[..i];
      var data := ProcessRowData(rows[i]);
      if data.None? {
        assert Kept(rows[..i + 1]).1;
        KeptAfterRaise(rows, i + 1);
        RaisedCommits(Kept(rows[..i]).0, flushed, batch);
        return false, table, count, duplicateCount;
      }
      if data.value.hash != "" {
        var raised;
        table, duplicateCount, count, batch, raised, flushed :=
          AddRecord(db, table0, Kept(rows[..i]).0, flushed, batch, table, duplicateCount, count, data.value);
        if raised {
          KeptPrefix(rows, i + 1);
          SentBeforeRaise(db, table0, Kept(rows).0, Kept(rows).1 || broken, flushed);
          return false, table, count, duplicateCount;
        }
      }
      i := i + 1;
    }
    assert rows[..i] == rows;
    if broken {
      RaisedCommits(Kept(rows).0, flushed, batch);
      return false, table, count, duplicateCount;
    }
    var raised;
    table, duplicateCount, raised := FlushRemainder(db, table0, Kept(rows).0, flushed, batch, table, duplicateCount, count);
    ok := !raised;
  }

  /** After the last row the pending batch, if any, goes out: every batch `Committed` names has then been sent. */
  method FlushRemainder(db: Db, ghost table0: seq<Record>, ghost kept: seq<Record>, ghost flushed: seq<seq<Record>>,
                        batch: seq<Record>, table0': seq<Record>, duplicates0: nat, count: nat)
    returns (table: seq<Record>, duplicates: nat, raised: bool)
    requires Progress(db, table0, kept, flushed, batch, table0', duplicates0, count)
    ensures Tally(table, duplicates, raised) == FlushAll(db, table0, Committed(kept, false))
  {
    table, duplicates, raised := table0', duplicates0, false;
    ghost var done := flushed;
    if batch != [] {
      FlattenSnoc(flushed, batch);
      table, duplicates, raised, done := FlushStep(db, table0, flushed, table, duplicates, batch);
    } else {
      assert Flatten(flushed) == kept;
    }
    FinalCommits(kept, done, batch);
  }

  /** One kept record: append it, and flush when the count reaches a multiple of 1000. */
  method AddRecord(db: Db, ghost table0: seq<Record>, ghost kept: seq<Record>, ghost flushed0: seq<seq<Record>>,
                   batch0: seq<Record>, table0': seq<Record>, duplicates0: nat, count0: nat, rec: Record)
    returns (table: seq<Record>, duplicates: nat, count: nat, batch: seq<Record>, raised: bool, ghost flushed: seq<seq<Record>>)
    requires Progress(db, table0, kept, flushed0, batch0, table0', duplicates0, count0)
    ensures !raised ==> Progress(db, table0, kept + [rec], flushed, batch, table, duplicates, count)
    ensures raised ==>
      && Flatten(flushed) == kept + [rec] && FullSlices(flushed, BatchSize) && count == |kept| + 1
      && Tally(table, duplicates, true) == FlushAll(db, table0, flushed)
  {
    batch := batch0 + [rec];
    count := count0 + 1;
    table, duplicates, flushed, raised := table0', duplicates0, flushed0, false;
    FlattenFullLength(flushed0, BatchSize);
    assert count == BatchSize * |flushed0| + |batch|;
    BatchBoundary(|flushed0|, |batch|);
    if count % BatchSize == 0 {
      FlattenSnoc(flushed0, batch);
      table, duplicates, raised, flushed := FlushStep(db, table0, flushed0, table, duplicates, batch);
      batch := [];
    }
  }

  lemma BatchBoundary(f: nat, b: nat)
    requires 1 <= b <= BatchSize
    ensures (BatchSize * f + b) % BatchSize == 0 <==> b == BatchSize
  {
    if b == BatchSize {
      assert BatchSize * f + b == BatchSize * (f + 1);
    } else {
      RemainderOf(f, b);
    }
  }

  lemma RemainderOf(f: nat, b: nat)
    requires b < BatchSize
    ensures (BatchSize * f + b) % BatchSize == b
  {
  }

  /** Full batches that begin the kept records are multiples of 1000 that fit under the rows sent. */
  lemma FullPrefixFits(f: nat, n: nat)
    requires BatchSize * f <= n
    ensures BatchSize * f <= n - n % BatchSize
  {
    assert n == BatchSize * (n / BatchSize) + n % BatchSize;
  }

  /** A full batch in front of some rows is their first slice. */
  lemma SlicesCons(h: seq<Record>, after: seq<Record>)
    requires |h| == BatchSize
    ensures Slices(h + after, BatchSize) == [h] + Slices(after, BatchSize)
  {
    var all := h + after;
    if after == [] {
      assert all == h;
      assert Slices(after, BatchSize) == [];
    } else {
      assert all[..BatchSize] == h && all[BatchSize..] == after;
      SlicesUnfold(all, BatchSize);
    }
  }

  /** Slicing rows that begin with full batches gives those batches first. */
  lemma {:induction false} SlicesAfterFull(fl: seq<seq<Record>>, rest: seq<Record>)
    requires FullSlices(fl, BatchSize)
    ensures Slices(Flatten(fl) + rest, BatchSize) == fl + Slices(rest, BatchSize)
    decreases |fl|
  {
    if fl == [] {
      assert Flatten(fl) + rest == rest;
    } else {
      assert FullSlices(fl[1..], BatchSize);
      SlicesAfterFull(fl[1..], rest);
      SlicesAfterFullStep(fl, rest);
    }
  }

  lemma SlicesAfterFullStep(fl: seq<seq<Record>>, rest: seq<Record>)
    requires fl != [] && |fl[0]| == BatchSize
    requires Slices(Flatten(fl[1..]) + rest, BatchSize) == fl[1..] + Slices(rest, BatchSize)
    ensures Slices(Flatten(fl) + rest, BatchSize) == fl + Slices(rest, BatchSize)
  {
    var h, tail := fl[0], fl[1..];
    var after := Flatten(tail) + rest;
    FlattenConsRest(fl, rest);
    SlicesCons(h, after);
    assert fl == [h] + tail;
    ConcatAssoc([h], tail, Slices(rest, BatchSize));
  }

  lemma FlattenConsRest(fl: seq<seq<Record>>, rest: seq<Record>)
    requires fl != []
    ensures Flatten(fl) + rest == fl[0] + (Flatten(fl[1..]) + rest)
  {
    assert Flatten(fl) == fl[0] + Flatten(fl[1..]);
  }

  /**
   * When a batch raises, the batches sent so far begin the batches the
   * whole run would send, so executing these ends where the import did.
   */
  lemma SentBeforeRaise(db: Db, table0: seq<Record>, kept: seq<Record>, rowRaised: bool, flushed: seq<seq<Record>>)
    requires FullSlices(flushed, BatchSize)
    requires |Flatten(flushed)| <= |kept| && kept[..|Flatten(flushed)|] == Flatten(flushed)
    requires FlushAll(db, table0, flushed).raised
    ensures FlushAll(db, table0, Committed(kept, rowRaised)) == FlushAll(db, table0, flushed)
  {
    var sent := CommittedRows(kept, rowRaised);
    var f := |Flatten(flushed)|;
    FlattenFullLength(flushed, BatchSize);
    if rowRaised {
      FullPrefixFits(|flushed|, |kept|);
    }
    assert f <= |sent|;
    assert sent == Flatten(flushed) + sent[f..] by {
      assert sent[..f] == kept[..f];
    }
    SlicesAfterFull(flushed, sent[f..]);
    FlushAllAfterRaise(db, table0, flushed, Slices(sent[f..], BatchSize));
  }

  /** After a raising row the flushed batches are the slicing of the kept records up to the last full batch. */
  lemma RaisedCommits(kept: seq<Record>, flushed: seq<seq<Record>>, batch: seq<Record>)
    requires Flatten(flushed) + batch == kept && FullSlices(flushed, BatchSize) && |batch| < BatchSize
    ensures Committed(kept, true) == flushed
  {
    FlattenFullLength(flushed, BatchSize);
    RemainderOf(|flushed|, |batch|);
    assert kept[..|kept| - |kept| % BatchSize] == Flatten(flushed);
    SlicesCharacterized(flushed, BatchSize);
  }

  /** At the end the flushed batches, the last one possibly short, are the slicing of all kept records. */
  lemma FinalCommits(kept: seq<Record>, flushed: seq<seq<Record>>, batch: seq<Record>)
    requires Flatten(flushed) == kept
    requires forall k :: 0 <= k < |flushed| ==> 1 <= |flushed[k]| <= BatchSize
    requires forall k :: 0 <= k < |flushed| - 1 ==> |flushed[k]| == BatchSize
    ensures Committed(kept, false) == flushed
  {
    SlicesCharacterized(flushed, BatchSize);
  }

  /**
   * A completed read of the file adds exactly `count - duplicate_count`
   * rows when no batch raises, keeps the key unique, and cannot raise when
   * no kept record has a data fault.
   */
  lemma ImportedCount(db: Db, table0: seq<Record>, rows: seq<map<string, string>>)
    requires Unique(db, table0) && !Kept(rows).1
    ensures var r := FlushAll(db, table0, Committed(Kept(rows).0, false));
      && Unique(db, r.table) && |table0| <= |r.table| && r.table[..|table0|] == table0
      && (!r.raised ==> |r.table| - |table0| == |Kept(rows).0| - r.duplicates)
      && (FaultFree(db, Kept(rows).0) ==> !r.raised)
  {
    var kept := Kept(rows).0;
    FlushAllMeaning(db, table0, Slices(kept, BatchSize));
  }

  /**
   * `copy_from_proxy_database` after both connections: the source rows in
   * slices of 1000, each executed with duplicate recovery, until one
   * raises.  An empty source returns True at once.
   */
  method CopyFromProxyDatabase(db: Db, connected: bool, source: seq<Record>, table0: seq<Record>)
    returns (ok: bool, table: seq<Record>, duplicateCount: nat)
    ensures !connected ==> !ok && table == table0 && duplicateCount == 0
    ensures connected ==> Tally(table, duplicateCount, !ok) == FlushAll(db, table0, Slices(source, BatchSize))
  {
    if !connected {
      return false, table0, 0;
    }
    table, duplicateCount := table0, 0;
    if source == [] {
      return true, table, 0;
    }
    ghost var done: seq<seq<Record>> := [];
    var i := 0;
    while i < |source|
      invariant i <= |source|
      invariant Slices(source, BatchSize) == done + Slices(source[i..], BatchSize)
      invariant Tally(table, duplicateCount, false) == FlushAll(db, table0, done)
      decreases |source| - i
    {
      var hi := if i + BatchSize <= |source| then i + BatchSize else |source|;
      var batch := source[i..hi];
      SliceStep(source, done, i);
      var raised;
      table, duplicateCount, raised, done := FlushStep(db, table0, done, table, duplicateCount, batch);
      if raised {
        FlushAllAfterRaise(db, table0, done, Slices(source[hi..], BatchSize));
        return false, table, duplicateCount;
      }
      i := hi;
    }
    assert Slices(source[i..], BatchSize) == [];
    assert done + [] == done;
    ok := true;
  }

  /** `range(0, len(rows), 1000)`: the slice at `i` is followed by the slicing of what comes after it. */
  lemma SliceStep(rows: seq<Record>, done: seq<seq<Record>>, i: nat)
    requires i < |rows| && Slices(rows, BatchSize) == done + Slices(rows[i..], BatchSize)
    ensures var hi := if i + BatchSize <= |rows| then i + BatchSize else |rows|;
      Slices(rows, BatchSize) == done + [rows[i..hi]] + Slices(rows[hi..], BatchSize)
  {
    var hi := if i + BatchSize <= |rows| then i + BatchSize else |rows|;
    SliceSplit(rows, i);
    ConcatAssoc(done, [rows[i..hi]], Slices(rows[hi..], BatchSize));
  }

  lemma SliceSplit(rows: seq<Record>, i: nat)
    requires i < |rows|
    ensures var hi := if i + BatchSize <= |rows| then i + BatchSize else |rows|;
      Slices(rows[i..], BatchSize) == [rows[i..hi]] + Slices(rows[hi..], BatchSize)
  {
    var r := rows[i..];
    if |r| <= BatchSize {
      assert Slices(r, BatchSize) == [r];
      assert rows[i..|rows|] == r;
      assert Slices(rows[|rows|..], BatchSize) == [];
    } else {
      SlicesUnfold(r, BatchSize);
      assert r[..BatchSize] == rows[i..i + BatchSize];
      assert r[BatchSize..] == rows[i + BatchSize..];
    }
  }

  /** The three `--database` targets, with their databases. */
  datatype Target = SdsCalibratedDb | SelDb | SelCalibratedDb

  function DatabaseName(t: Target): string {
    match t
    case SdsCalibratedDb => "proxy_sds_calibrated"
    case SelDb => "proxy_sel"
    case SelCalibratedDb => "proxy_sel_calibrated"
  }

  /** `--database`: one target, or `all` of them in the mapping's order. */
  function Targets(only: Option<Target>): (r: seq<Target>)
    ensures only.Some? ==> r == [only.value]
    ensures only.None? ==> |r| == 3 && forall t: Target :: t in r
  {
    if only.Some? then [only.value]
    else
      var all := [SdsCalibratedDb, SelDb, SelCalibratedDb];
      assert forall t: Target :: t in all by {
        forall t: Target ensures t in all {
          assert t == all[0] || t == all[1] || t == all[2];
        }
      }
      all
  }

  /**
   * Where a target's rows come from: `--copy-from-proxy` wins, then
   * `--csv-file`, and without either the rows are copied from `proxy`.
   */
  function FromCsv(copyFromProxy: bool, csvFile: Option<string>): (b: bool)
    ensures b <==> !copyFromProxy && csvFile.Some?
  {
    if copyFromProxy then false else csvFile.Some?
  }

  /**
   * One target of `main` succeeds when its table is created (if asked)
   * and then its import or copy succeeds; a failed creation skips it.
   */
  predicate TargetSucceeds(createTables: bool, created: Target -> bool, fromCsv: bool,
                           csvOk: Target -> bool, copyOk: Target -> bool, t: Target) {
    (!createTables || created(t)) && (if fromCsv then csvOk(t) else copyOk(t))
  }

  /** How many targets succeed. */
  function CountSucceeded(createTables: bool, created: Target -> bool, fromCsv: bool,
                          csvOk: Target -> bool, copyOk: Target -> bool, ts: seq<Target>): (n: nat)
    ensures n <= |ts|
  {
    if ts == [] then 0
    else
      var last := if TargetSucceeds(createTables, created, fromCsv, csvOk, copyOk, ts[|ts| - 1]) then 1 else 0;
      CountSucceeded(createTables, created, fromCsv, csvOk, copyOk, ts[..|ts| - 1]) + last
  }

  /** Every target succeeded exactly when the success count reaches the target count. */
  lemma {:induction false} AllSucceeded(createTables: bool, created: Target -> bool, fromCsv: bool,
                                        csvOk: Target -> bool, copyOk: Target -> bool, ts: seq<Target>)
    ensures CountSucceeded(createTables, created, fromCsv, csvOk, copyOk, ts) == |ts| <==>
      forall i :: 0 <= i < |ts| ==> TargetSucceeds(createTables, created, fromCsv, csvOk, copyOk, ts[i])
  {
    if ts != [] {
      var init := ts[..|ts| - 1];
      AllSucceeded(createTables, created, fromCsv, csvOk, copyOk, init);
      assert forall i :: 0 <= i < |init| ==> init[i] == ts[i];
      if CountSucceeded(createTables, created, fromCsv, csvOk, copyOk, ts) == |ts| {
        assert CountSucceeded(createTables, created, fromCsv, csvOk, copyOk, init) == |init|;
      }
    }
  }

  /**
   * `main`'s loop over the targets: `successCount` counts the targets
   * whose creation (when asked) and import or copy succeeded, out of
   * `totalCount`.
   */
  method RunTargets(only: Option<Target>, createTables: bool, copyFromProxy: bool, csvFile: Option<string>,
                    created: Target -> bool, csvOk: Target -> bool, copyOk: Target -> bool)
    returns (successCount: nat, totalCount: nat)
    ensures totalCount == |Targets(only)|
    ensures successCount == CountSucceeded(createTables, created, FromCsv(copyFromProxy, csvFile), csvOk, copyOk, Targets(only))
  {
    var targets := Targets(only);
    ghost var fromCsv := FromCsv(copyFromProxy, csvFile);
    successCount := 0;
    totalCount := |targets|;
    var i := 0;
    while i < |targets|
      invariant i <= |targets|
      invariant successCount == CountSucceeded(createTables, created, fromCsv, csvOk, copyOk, targets[..i])
    {
      assert targets[..i + 1][..i] == targets[..i];
      var t := targets[i];
      if createTables && !created(t) {
        i := i + 1;
        continue;
      }
      if copyFromProxy {
        if copyOk(t) { successCount := successCount + 1; }
      } else if csvFile.Some? {
        if csvOk(t) { successCount := successCount + 1; }
      } else {
        if copyOk(t) { successCount := successCount + 1; }
      }
      i := i + 1;
    }
    assert targets[..i] == targets;
  }
}
