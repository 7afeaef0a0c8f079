/**
 * import_proposals_predictions.py: loads a predictions CSV into the
 * `proposals_predictions` table of one to three databases.
 *
 * A CSV row is the dictionary `csv.DictReader` yields; a key that is
 * absent stands for a column the header does not have.  The database is
 * the list of committed rows, and `executemany` followed by `commit`
 * either stores a whole group or raises (`ok(k)` for the `k`-th group).
 */
module ProposalsPredictions {
  import opened Wrappers
  import opened PyText
  import opened Dates
  import opened RowStream
  import Batching
  import Outreach

  type Row = map<string, string>

  const BatchSize: nat := 1000

  /**
   * `parse_date`: a blank value gives None; otherwise the UNTRIMMED text
   * goes to `strptime(…, '%m/%d/%Y')` and a date comes back as its
   * `'%Y-%m-%d'` text.
   */
  function ParseDate(strptime: Strptime, v: Option<string>): (r: Option<string>)
    ensures Outreach.Blank(v) ==> r == None
    ensures !Outreach.Blank(v) ==>
      (r.Some? <==> strptime(v.value, MdySlash).Some?) &&
      (r.Some? ==> r.value == IsoText(strptime(v.value, MdySlash).value))
  {
    if Outreach.Blank(v) then None
    else match strptime(v.value, MdySlash)
      case None => None
      case Some(d) => Some(IsoText(d))
  }

  /** A parsed date is ten characters `YYYY-MM-DD` that read back as the date `strptime` found. */
  lemma ParsedDateIsIso(strptime: Strptime, s: string, d: Date)
    requires !Outreach.Blank(Some(s)) && strptime(s, MdySlash) == Some(d) && ValidDate(d)
    ensures ParseDate(strptime, Some(s)) == Some(IsoText(d))
    ensures var t := IsoText(d);
      && |t| == 10 && t[4] == '-' && t[7] == '-'
      && PyNum.DecValue(t[..4]) == d.year && PyNum.DecValue(t[5..7]) == d.month && PyNum.DecValue(t[8..]) == d.day
  {
    IsoTextReadsBack(d);
  }

  /**
   * Surrounding blanks are not removed: when stripping changes a value,
   * `strptime` sees the value as read, not the stripped one.
   */
  lemma DateNotTrimmed(strptime: Strptime, s: string)
    requires Strip(s) != [] && strptime(s, MdySlash).None? && strptime(Strip(s), MdySlash).Some?
    ensures ParseDate(strptime, Some(s)) == None
    ensures ParseDate(strptime, Some(Strip(s))).Some?
  {
    StripIdempotent(s);
  }

  /** The words `safe_bool` reads as True and as False, after upper-casing. */
  predicate TrueWord(w: string) {
    w == "TRUE" || w == "1" || w == "YES" || w == "Y"
  }

  predicate FalseWord(w: string) {
    w == "FALSE" || w == "0" || w == "NO" || w == "N"
  }

  /** `safe_bool`: blank gives None; the stripped, upper-cased word decides; any other word gives None. */
  function SafeBool(v: Option<string>): (r: Option<bool>)
    ensures Outreach.Blank(v) ==> r == None
    ensures r == Some(true) <==> !Outreach.Blank(v) && TrueWord(Upper(Strip(v.value)))
    ensures r == Some(false) <==> !Outreach.Blank(v) && FalseWord(Upper(Strip(v.value)))
  {
    if Outreach.Blank(v) then None else WordFlag(Upper(Strip(v.value)))
  }

  function WordFlag(w: string): (r: Option<bool>)
    ensures r == Some(true) <==> TrueWord(w)
    ensures r == Some(false) <==> FalseWord(w)
  {
    if TrueWord(w) then Some(true) else if FalseWord(w) then Some(false) else None
  }

  /** Upper-casing after a lower-casing is the same as upper-casing. */
  lemma UpperOfLower(s: string)
    ensures Upper(Lower(s)) == Upper(s)
  {
  }

  /** `safe_bool` ignores case and surrounding blanks. */
  lemma SafeBoolIgnoresCaseAndBlanks(s: string)
    ensures SafeBool(Some(Lower(s))) == SafeBool(Some(s))
    ensures SafeBool(Some(Strip(s))) == SafeBool(Some(s))
  {
    StripLower(s);
    UpperOfLower(Strip(s));
    StripIdempotent(s);
    LowerBlank(s);
  }

  lemma LowerBlank(s: string)
    ensures Strip(Lower(s)) == [] <==> Strip(s) == []
  {
    StripLower(s);
  }

  /** `row.get(k) if row.get(k) not in ['', '-1'] else None` for `director_name`. */
  function DirectorName(v: Option<string>): (r: Option<string>)
    ensures r.Some? ==> v == r && r.value != "" && r.value != "-1"
    ensures v.Some? && v.value != "" && v.value != "-1" ==> r == v
  {
    if v == Some("") || v == Some("-1") then None else v
  }

  /** The text fields copied with `row.get(k) or None`, in column order. */
  const TextKeys: seq<string> := [
    "final_key", "job_number", "issuer_name", "service", "cusip6", "mgmt_rec", "proposal", "proposal_type"]

  /** The share columns read with `safe_int`, in column order. */
  const ShareKeys: seq<string> := [
    "predicted_for_shares", "predicted_against_shares", "predicted_abstain_shares", "predicted_unvoted_shares",
    "total_for_shares", "total_against_shares", "total_abstain_shares", "total_unvoted_shares"]

  /** The integer columns, each read with `safe_int`. */
  const IntKeys: seq<string> := ["proposal_master_skey", "director_master_skey", "director_number"] + ShareKeys

  /**
   * The row `process_row_data` builds, without its DECIMAL columns
   * (`safe_float` is not modelled).  `D` is what the date parser gives.
   */
  datatype Prediction<D> = Prediction(
    proposalKey: Option<int>, directorKey: Option<int>, texts: seq<Option<string>>,
    mtDate: Option<D>, mlDate: Option<D>, recordDate: Option<D>,
    directorNumber: Option<int>, directorName: Option<string>,
    category: Option<string>, subcategory: Option<string>, shares: seq<Option<int>>,
    predictionCorrect: Option<bool>, approved: Option<bool>,
    againstProspectus: Option<string>, abstainProspectus: Option<string>)

  /** The `safe_int` conversions of the integer columns, in `IntKeys` order. */
  function IntConversions(toInt: IntParser, row: Row): (r: seq<Outreach.Conversion>)
    ensures |r| == |IntKeys| && forall k :: 0 <= k < |IntKeys| ==> r[k] == toInt(Outreach.Get(row, IntKeys[k]))
  {
    seq(|IntKeys|, k requires 0 <= k < |IntKeys| => toInt(Outreach.Get(row, IntKeys[k])))
  }

  /** An integer converter such as `safe_int`. */
  type IntParser = Option<string> -> Outreach.Conversion

  /** Whether one of the `safe_int` columns lets an OverflowError out (`int(float('inf'))`). */
  predicate IntRaises(toInt: IntParser, row: Row) {
    exists k :: 0 <= k < |IntKeys| && IntConversions(toInt, row)[k].RaisesOverflow?
  }

  /** The values of the conversions, or `None` when one of them raises. */
  function AllValues(cs: seq<Outreach.Conversion>): (r: Option<seq<Option<int>>>)
    ensures r.None? <==> exists k :: 0 <= k < |cs| && cs[k].RaisesOverflow?
    ensures r.Some? ==> |r.value| == |cs| && forall k :: 0 <= k < |cs| ==> r.value[k] == cs[k].value
  {
    if exists k :: 0 <= k < |cs| && cs[k].RaisesOverflow? then None
    else Some(seq(|cs|, k requires 0 <= k < |cs| => cs[k].value))
  }

  function TextAt(row: Row, k: string): Option<string> {
    Outreach.OrNone(Outreach.Get(row, k))
  }

  /**
   * `process_row_data`, with the date parser as a parameter; `None` is
   * the OverflowError one of the integer columns raises.  The script reads
   * every integer column with `safe_int`; the converter is a parameter
   * so that the other scripts' copies can share this definition.
   */
  function ProcessRowData<D>(date: Option<string> -> Option<D>, toInt: IntParser, row: Row): (r: Option<Prediction<D>>)
    ensures r.None? <==> IntRaises(toInt, row)
    ensures r.Some? ==> r.value == Build(date, row, AllValues(IntConversions(toInt, row)).value)
  {
    match AllValues(IntConversions(toInt, row))
    case None => None
    case Some(ns) => Some(Build(date, row, ns))
  }

  /** The dictionary of `process_row_data`, given the values of the integer columns in `IntKeys` order. */
  function Build<D>(date: Option<string> -> Option<D>, row: Row, ns: seq<Option<int>>): Prediction<D>
    requires |ns| == |IntKeys|
  {
    Prediction(
      ns[0], ns[1],
      seq(|TextKeys|, k requires 0 <= k < |TextKeys| => TextAt(row, TextKeys[k])),
      date(Outreach.Get(row, "mt_date")), date(Outreach.Get(row, "ml_date")), date(Outreach.Get(row, "record_date")),
      ns[2], DirectorName(Outreach.Get(row, "director_name")),
      TextAt(row, "Category"), TextAt(row, "Subcategory"),
      ns[3..],
      SafeBool(Outreach.Get(row, "prediction_correct")), SafeBool(Outreach.Get(row, "approved")),
      TextAt(row, "Against (%) - From Prospectus 2026 File"),
      TextAt(row, "Abstain/Withhold (%) - From Prospectus 2026 File"))
  }

  /**
   * The columns of a converted row: every integer column holds its
   * `safe_int` value, in particular None for blank and `'-1'` keys, and
   * the director name passes unless it is exactly `''` or `'-1'`.
   */
  lemma ConvertedColumns<D>(date: Option<string> -> Option<D>, toInt: IntParser, row: Row)
    requires !IntRaises(toInt, row)
    ensures var p := ProcessRowData(date, toInt, row).value; var cs := IntConversions(toInt, row);
      && p.proposalKey == cs[0].value && p.directorKey == cs[1].value && p.directorNumber == cs[2].value
      && |p.shares| == |ShareKeys| && (forall k :: 0 <= k < |ShareKeys| ==> p.shares[k] == cs[k + 3].value)
      && p.directorName == DirectorName(Outreach.Get(row, "director_name"))
      && p.predictionCorrect == SafeBool(Outreach.Get(row, "prediction_correct"))
      && p.approved == SafeBool(Outreach.Get(row, "approved"))
  {
  }

  /** Category and subcategory come from the capitalised headers only; a lower-case `category` is ignored. */
  lemma CategoryFromCapitalisedHeader<D>(date: Option<string> -> Option<D>, row: Row)
    requires !IntRaises(Outreach.SafeInt, row) && "Category" !in row
    ensures ProcessRowData(date, Outreach.SafeInt, row).value.category == None
  {
  }

  /** The converter of this script: dates as `'%Y-%m-%d'` text. */
  function Convert(strptime: Strptime): Row -> Option<Prediction<string>> {
    row => ProcessRowData(v => ParseDate(strptime, v), Outreach.SafeInt, row)
  }

  /** The number of statements a run over `n` rows sends: the full groups, and the remainder unless a row raised. */
  function Sent(n: nat, raised: bool): nat {
    n / BatchSize + (if !raised && n % BatchSize != 0 then 1 else 0)
  }

  /**
   * What `import_csv_to_database` leaves in the table and returns, for
   * the values `vs` of the rows read before one raised (`raised`): the
   * leading groups up to the first failing one, and True only when no
   * row raised and every group went in.
   */
  ghost predicate Imported<T>(vs: seq<T>, raised: bool, ok: nat -> bool, result: bool, committed: seq<T>) {
    var good := Leading(ok, Sent(|vs|, raised));
    && committed == vs[..Batching.Min(BatchSize * good, |vs|)]
    && (result <==> !raised && good == Sent(|vs|, raised))
  }

  /** The loop state after the values `vs`: every full group is committed, the rest is pending. */
  ghost predicate Pending<T>(vs: seq<T>, ok: nat -> bool, committed: seq<T>, batch: seq<T>, groups: nat) {
    && |vs| == BatchSize * groups + |batch| && |batch| < BatchSize
    && committed == vs[..BatchSize * groups] && batch == vs[BatchSize * groups..]
    && forall j :: 0 <= j < groups ==> ok(j)
  }

  /**
   * The row loop of `import_csv_to_database` over the rows after the
   * header, for any converter: a group goes out each time the row count
   * reaches a multiple of 1000, the remainder after the last row, and any
   * exception ends the import with False after the rollback (committed
   * groups stay).  `broken` says whether asking the reader for a row after
   * `rows` raises, which it does only when no row raised before.
   */
  method ImportRows<R, T>(process: R -> Option<T>, rows: seq<R>, broken: bool, ok: nat -> bool)
    returns (result: bool, committed: seq<T>)
    ensures Imported(Processed(process, rows).0, Processed(process, rows).1 || broken, ok, result, committed)
  {
    committed := [];
    var batch: seq<T> := [];
    var count: nat := 0;
    var groups: nat := 0;
    var i := 0;
    assert rows[..0] == [];
    while i < |rows|
      invariant i <= |rows| && count == i
      invariant !Processed(process, rows[..i]).1 && |Processed(process, rows[..i]).0| == i
      invariant Pending(Processed(process, rows[..i]).0, ok, committed, batch, groups)
    {
      ghost var vs := Processed(process, rows[..i]).0;
      ProcessedSnoc(process, rows, i);
      ProcessedGrows(process, rows, i + 1);
      var data := process(rows[i]);
      if data.None? {
        RaisedExit(Processed(process, rows).0, vs, ok, committed, batch, groups);
        return false, committed;
      }
      count := count + 1;
      var failed;
      committed, batch, groups, failed := AddValue(vs, data.value, count, ok, committed, batch, groups);
      if failed {
        FailedExit(Processed(process, rows).0, Processed(process, rows).1 || broken, vs + [data.value], ok, committed, groups);
        return false, committed;
      }
      i := i + 1;
    }
    assert rows[..i] == rows;
    if broken {
      RaisedExit(Processed(process, rows).0, Processed(process, rows).0, ok, committed, batch, groups);
      return false, committed;
    }
    result, committed := Finish(Processed(process, rows).0, ok, committed, batch, groups);
  }

  /** Group `groups` was sent with the values `vs` and failed. */
  ghost predicate Failing<T>(vs: seq<T>, ok: nat -> bool, committed: seq<T>, groups: nat) {
    && |vs| == BatchSize * (groups + 1) && !ok(groups)
    && committed == vs[..BatchSize * groups]
    && forall j :: 0 <= j < groups ==> ok(j)
  }

  /**
   * Appends one value; when the row count `count` reaches a multiple of
   * 1000 the group is sent, and committed unless it fails.
   */
  method AddValue<T>(ghost vs: seq<T>, t: T, count: nat, ok: nat -> bool,
                     committed: seq<T>, batch: seq<T>, groups: nat)
    returns (committed2: seq<T>, batch2: seq<T>, groups2: nat, failed: bool)
    requires Pending(vs, ok, committed, batch, groups) && count == |vs| + 1
    ensures !failed ==> Pending(vs + [t], ok, committed2, batch2, groups2)
    ensures failed ==> Failing(vs + [t], ok, committed2, groups2)
  {
    committed2, batch2, groups2, failed := committed, batch + [t], groups, false;
    if count % BatchSize != 0 {
      PendingStep(vs, t, ok, committed, batch, groups);
      return;
    }
    if !ok(groups) {
      FailingStep(vs, t, ok, committed, batch, groups);
      failed := true;
      return;
    }
    FullGroup(vs, t, ok, committed, batch, groups);
    committed2, batch2, groups2 := committed + batch2, [], groups + 1;
  }

  lemma PendingStep<T>(vs: seq<T>, t: T, ok: nat -> bool, committed: seq<T>, batch: seq<T>, groups: nat)
    requires Pending(vs, ok, committed, batch, groups) && (|vs| + 1) % BatchSize != 0
    ensures Pending(vs + [t], ok, committed, batch + [t], groups)
  {
    assert (vs + [t])[..BatchSize * groups] == vs[..BatchSize * groups];
    assert (vs + [t])[BatchSize * groups..] == vs[BatchSize * groups..] + [t];
  }

  lemma FailingStep<T>(vs: seq<T>, t: T, ok: nat -> bool, committed: seq<T>, batch: seq<T>, groups: nat)
    requires Pending(vs, ok, committed, batch, groups) && (|vs| + 1) % BatchSize == 0 && !ok(groups)
    ensures Failing(vs + [t], ok, committed, groups)
  {
    assert |vs| + 1 == BatchSize * (groups + 1);
    assert (vs + [t])[..BatchSize * groups] == vs[..BatchSize * groups];
  }

  lemma FullGroup<T>(vs: seq<T>, t: T, ok: nat -> bool, committed: seq<T>, batch: seq<T>, groups: nat)
    requires Pending(vs, ok, committed, batch, groups) && (|vs| + 1) % BatchSize == 0 && ok(groups)
    ensures Pending(vs + [t], ok, committed + (batch + [t]), [], groups + 1)
  {
    assert |vs| + 1 == BatchSize * (groups + 1);
    assert committed + (batch + [t]) == vs[..BatchSize * groups] + vs[BatchSize * groups..] + [t];
    assert vs[..BatchSize * groups] + vs[BatchSize * groups..] == vs;
    assert (vs + [t])[..BatchSize * (groups + 1)] == vs + [t];
  }

  /** A row raised after the values `vs`, which are all there is: the full groups are committed. */
  lemma RaisedExit<T>(all: seq<T>, vs: seq<T>, ok: nat -> bool, committed: seq<T>, batch: seq<T>, groups: nat)
    requires Pending(vs, ok, committed, batch, groups) && all == vs
    ensures Imported(all, true, ok, false, committed)
  {
    assert |vs| / BatchSize == groups;
    LeadingAll(ok, groups);
  }

  /** Group `groups` failed; `all` extends the values read so far. */
  lemma FailedExit<T>(all: seq<T>, raised: bool, vs: seq<T>, ok: nat -> bool, committed: seq<T>, groups: nat)
    requires Failing(vs, ok, committed, groups) && vs <= all
    ensures Imported(all, raised, ok, false, committed)
  {
    assert Sent(|all|, raised) >= groups + 1 by {
      assert |all| / BatchSize >= groups + 1;
    }
    LeadingStops(ok, Sent(|all|, raised), groups);
    assert all[..BatchSize * groups] == vs[..BatchSize * groups];
  }

  /** After the last row the remainder, if any, goes out. */
  method Finish<T>(ghost vs: seq<T>, ok: nat -> bool, committed: seq<T>, batch: seq<T>, groups: nat)
    returns (result: bool, committed2: seq<T>)
    requires Pending(vs, ok, committed, batch, groups)
    ensures Imported(vs, false, ok, result, committed2)
  {
    assert |vs| / BatchSize == groups && |vs| % BatchSize == |batch|;
    if batch == [] {
      LeadingAll(ok, groups);
      return true, committed;
    }
    if !ok(groups) {
      LeadingStops(ok, groups + 1, groups);
      return false, committed;
    }
    LeadingAll(ok, groups + 1);
    assert committed + batch == vs;
    return true, committed + batch;
  }

  /** A clean run imports every row, in file order, one value per row. */
  lemma CleanRunImportsEverything<R, T>(process: R -> Option<T>, rows: seq<R>, ok: nat -> bool, committed: seq<T>)
    requires forall j :: 0 <= j < |rows| ==> process(rows[j]).Some?
    requires forall j :: 0 <= j < Sent(|rows|, false) ==> ok(j)
    requires Imported(Processed(process, rows).0, Processed(process, rows).1, ok, true, committed)
    ensures |committed| == |rows| && forall j :: 0 <= j < |rows| ==> committed[j] == process(rows[j]).value
  {
    ProcessedMeaning(process, rows);
    LeadingAll(ok, Sent(|rows|, false));
  }

  /** Whatever happens, the table holds whole leading groups of the rows or all of them, in file order. */
  lemma CommittedIsPrefix<T>(vs: seq<T>, raised: bool, ok: nat -> bool, result: bool, committed: seq<T>)
    requires Imported(vs, raised, ok, result, committed)
    ensures committed <= vs
    ensures |committed| % BatchSize == 0 || committed == vs
    ensures result ==> committed == vs
  {
    var good := Leading(ok, Sent(|vs|, raised));
    if result {
      assert BatchSize * good >= |vs|;
    }
  }

  /**
   * `import_csv_to_database`.  `file` is the rows the reader yields and
   * `broken` says whether asking it for the next row then raises.  A
   * missing file or a failed connection returns False and leaves the
   * table as it was; a raising reader ends the import like a raising row.
   */
  method ImportCsvToDatabase(strptime: Strptime, file: Option<seq<Row>>, broken: bool, connected: bool, ok: nat -> bool)
    returns (result: bool, committed: seq<Prediction<string>>)
    ensures file.None? || !connected ==> !result && committed == []
    ensures file.Some? && connected ==>
      var p := Processed(Convert(strptime), file.value);
      Imported(p.0, p.1 || broken, ok, result, committed)
  {
    if file.None? || !connected {
      return false, [];
    }
    result, committed := ImportRows(Convert(strptime), file.value, broken, ok);
  }

  /** The `--database` choices, and the targets each selects, in the order of `database_configs`. */
  const AllTargets: seq<string> := ["sds_calibrated", "sel", "sel_calibrated"]

  function Targets(choice: string): (r: Option<seq<string>>)
    ensures r.None? <==> choice != "all" && choice !in AllTargets
    ensures choice == "all" ==> r == Some(AllTargets)
    ensures choice in AllTargets ==> r == Some([choice])
  {
    if choice == "all" then Some(AllTargets)
    else if choice in AllTargets then Some([choice])
    else None
  }

  /** The database and file of a target, as `database_configs` lists them. */
  function Config(target: string): (string, string)
    requires target in AllTargets
  {
    if target == "sds_calibrated" then ("proxy_sds_calibrated", "backups/sds_proposal_calibrated.csv")
    else if target == "sel" then ("proxy_sel", "backups/2025_Predictions_Brandon_sel_666.csv")
    else ("proxy_sel_calibrated", "backups/sel666_proposal_calibrated.csv")
  }

  /**
   * The target loop of `main`: with `--create-tables`, a target whose
   * table cannot be created is skipped; every other target is imported,
   * and the successes are counted.
   */
  method RunTargets(targets: seq<string>, createTables: bool, created: string -> bool, imported: string -> bool)
    returns (attempted: seq<string>, successCount: nat)
    ensures attempted == Filter(targets, t => !createTables || created(t))
    ensures successCount == |Filter(attempted, imported)|
    ensures successCount <= |attempted| <= |targets|
  {
    attempted, successCount := [], 0;
    var i := 0;
    while i < |targets|
      invariant i <= |targets|
      invariant attempted == Filter(targets[..i], t => !createTables || created(t))
      invariant successCount == |Filter(attempted, imported)|
    {
      FilterSnoc(targets, i, t => !createTables || created(t));
      var t := targets[i];
      if !createTables || created(t) {
        FilterAppend(attempted, t, imported);
        attempted := attempted + [t];
        if imported(t) {
          successCount := successCount + 1;
        }
      }
      i := i + 1;
    }
    assert targets[..i] == targets;
    FilterShorter(targets, t => !createTables || created(t));
    FilterShorter(attempted, imported);
  }

  /** The elements of `xs` satisfying `p`, in order. */
  function Filter<T>(xs: seq<T>, p: T -> bool): seq<T>
    decreases |xs|
  {
    if xs == [] then [] else Filter(xs[..|xs| - 1], p) + (if p(xs[|xs| - 1]) then [xs[|xs| - 1]] else [])
  }

  lemma FilterSnoc<T>(xs: seq<T>, i: nat, p: T -> bool)
    requires i < |xs|
    ensures Filter(xs[..i + 1], p) == Filter(xs[..i], p) + (if p(xs[i]) then [xs[i]] else [])
  {
    assert xs[..i + 1][..i] == xs[..i];
  }

  lemma FilterAppend<T>(xs: seq<T>, t: T, p: T -> bool)
    ensures Filter(xs + [t], p) == Filter(xs, p) + (if p(t) then [t] else [])
  {
    assert (xs + [t])[..|xs|] == xs;
  }

  lemma {:induction false} FilterShorter<T>(xs: seq<T>, p: T -> bool)
    ensures |Filter(xs, p)| <= |xs|
    ensures forall x :: x in Filter(xs, p) ==> x in xs && p(x)
    decreases |xs|
  {
    if xs != [] {
      FilterShorter(xs[..|xs| - 1], p);
    }
  }

  lemma {:induction false} FilterMembers<T>(xs: seq<T>, p: T -> bool)
    ensures forall x :: x in Filter(xs, p) <==> x in xs && p(x)
    decreases |xs|
  {
    FilterShorter(xs, p);
    if xs != [] {
      var front := xs[..|xs| - 1];
      FilterMembers(front, p);
      assert xs == front + [xs[|xs| - 1]];
    }
  }

  lemma {:induction false} FilterNone<T>(xs: seq<T>, p: T -> bool)
    requires forall i :: 0 <= i < |xs| ==> !p(xs[i])
    ensures Filter(xs, p) == []
    decreases |xs|
  {
    if xs != [] {
      FilterNone(xs[..|xs| - 1], p);
    }
  }

  /** Filtering keeps the relative order: a sequence ranked increasingly by `rank` stays so. */
  lemma {:induction false} FilterRanked<T>(xs: seq<T>, p: T -> bool, rank: T -> int)
    requires forall i, j :: 0 <= i < j < |xs| ==> rank(xs[i]) < rank(xs[j])
    ensures forall i, j :: 0 <= i < j < |Filter(xs, p)| ==> rank(Filter(xs, p)[i]) < rank(Filter(xs, p)[j])
    decreases |xs|
  {
    if xs != [] {
      var front := xs[..|xs| - 1];
      var last := xs[|xs| - 1];
      FilterRanked(front, p, rank);
      FilterShorter(front, p);
      var f := Filter(front, p);
      if p(last) {
        forall i | 0 <= i < |f|
          ensures rank(f[i]) < rank(last)
        {
          assert f[i] in front;
        }
      }
    }
  }
}
