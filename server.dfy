/**
 * The decisions server.js takes around its SQL queries: paging and
 * filters of `/api/proposals`, the key choice and the `in_outreach` flag
 * of `/api/proposal-accounts`, the validation, de-duplication and
 * duplicate report of `/api/outreach/bulk-add`, and the counters of
 * `insertAccountData`.
 *
 * A query string is a map from parameter names to their texts and a JSON
 * body a `JsValue.Value`.  The database is an oracle: the result of each
 * query the handler sends is a parameter, `None` for a database error.
 * Callbacks of one connection run in the order their queries were sent,
 * so each handler is a sequential function.
 */
module Server {
  import opened Wrappers
  import opened JsValue
  import PyText
  import CsvDirect
  import ProposalsPredictions

  type Query = map<string, string>

  function Param(q: Query, name: string): Option<string> {
    if name in q then Some(q[name]) else None
  }

  /** `if (req.query.name)`: the parameter is there and not empty. */
  predicate Given(q: Query, name: string) {
    name in q && q[name] != ""
  }

  /** `Math.ceil(total / limit)` for a non-zero integer `limit`. */
  function CeilDiv(total: nat, limit: int): (r: int)
    requires limit != 0
    ensures limit > 0 ==> (r - 1) * limit < total <= r * limit
  {
    if limit > 0 then -((-(total as int)) / limit) else -((total as int) / (-limit))
  }

  // ---------------------------------------------------------------- /api/proposals

  /** `parseInt(v) || d`: NaN and 0 fall back to `d`. */
  function IntOr(v: Option<string>, d: int): int {
    match ParseParam(v, true)
    case Some(n) => if n != 0 then n else d
    case None => d
  }

  datatype Paging = Paging(page: int, limit: int, offset: int)

  /** `page`, `limit` and `offset` of `/api/proposals`. */
  function ProposalsPaging(q: Query): (p: Paging)
    ensures p.page != 0 && p.limit != 0 && p.offset == (p.page - 1) * p.limit
    ensures var n := ParseParam(Param(q, "page"), true); p.page == if n.None? || n.value == 0 then 1 else n.value
    ensures var n := ParseParam(Param(q, "limit"), true); p.limit == if n.None? || n.value == 0 then 50 else n.value
  {
    var page := IntOr(Param(q, "page"), 1);
    var limit := IntOr(Param(q, "limit"), 50);
    Paging(page, limit, (page - 1) * limit)
  }

  /** The paging a client asks for by rendering its (non-zero) numbers is the paging the server uses. */
  lemma ProposalsPagingOf(page: int, limit: int)
    ensures page != 0 && limit != 0 ==>
      ProposalsPaging(map["page" := ToStr(Num(page)), "limit" := ToStr(Num(limit))]) == Paging(page, limit, (page - 1) * limit)
  {
    var q := map["page" := ToStr(Num(page)), "limit" := ToStr(Num(limit))];
    assert Param(q, "page") == Some(ToStr(Num(page)));
    assert Param(q, "limit") == Some(ToStr(Num(limit)));
    ParseIntOfString(page, true);
    ParseIntOfString(limit, true);
  }

  /** Absent or zero values mean page 1 of 50. */
  lemma PagingDefaults(q: Query)
    requires forall name :: name in q ==> q[name] == "0"
    ensures ProposalsPaging(q) == Paging(1, 50, 0)
  {
    ParseZero();
    var page := Param(q, "page");
    var limit := Param(q, "limit");
    assert page.None? || page.value == "0";
    assert limit.None? || limit.value == "0";
  }

  lemma ParseZero()
    ensures ParseInt("0", true) == Some(0)
  {
    ParseIntOfString(0, true);
    assert ToStr(Num(0)) == "0";
  }

  /** With a positive limit, page `k` shows rows `offset..offset+limit` and the pages up to `total_pages` show every row exactly once. */
  lemma PagesCoverRows(total: nat, limit: int, row: nat)
    requires limit > 0 && row < total
    ensures var page := row / limit + 1;
      && 1 <= page <= CeilDiv(total, limit)
      && (page - 1) * limit <= row < page * limit
      && forall other: int :: (other - 1) * limit <= row < other * limit ==> other == page
  {
    var page := row / limit + 1;
    var t := CeilDiv(total, limit);
    var below := (row / limit) * limit;
    assert below <= row < below + limit;
    assert page * limit == below + limit by {
      MulDistrib(row / limit, limit);
    }
    assert page <= t by {
      if page > t {
        MulLe(t, page - 1, limit);
      }
    }
    forall other: int | (other - 1) * limit <= row < other * limit
      ensures other == page
    {
      if other < page {
        MulLe(other, page - 1, limit);
      } else if other > page {
        MulLe(page, other - 1, limit);
      }
    }
  }

  lemma MulLe(a: int, b: int, c: int)
    requires a <= b && c >= 0
    ensures a * c <= b * c
  {
    assert b * c - a * c == (b - a) * c;
  }

  lemma MulDistrib(a: int, c: int)
    ensures (a + 1) * c == a * c + c
  {
  }

  /** The SQL text of a string literal whose body is `esc(v)`. */
  function Literal(esc: string -> string, v: string): string {
    "'" + esc(v) + "'"
  }

  /** `v.replace(/'/g, "''")`, the escaping the handler applies. */
  function DoubleQuotes(v: string): string {
    PyText.ReplaceChar(v, '\'', "''")
  }

  /**
   * The filters of `/api/proposals` in the order the handler adds them,
   * with `esc` escaping the body of a string literal.
   */
  function Conditions(q: Query, esc: string -> string): (r: seq<string>)
    ensures |r| == (if Given(q, "prediction_correct") then 1 else 0) + (if Given(q, "approved") then 1 else 0)
                   + (if Given(q, "category") then 1 else 0) + (if Given(q, "search") then 1 else 0)
  {
    (if Given(q, "prediction_correct") then ["prediction_correct = " + (if q["prediction_correct"] == "true" then "true" else "false")] else [])
    + (if Given(q, "approved") then ["approved = " + (if q["approved"] == "true" then "true" else "false")] else [])
    + (if Given(q, "category") then ["category = " + Literal(esc, q["category"])] else [])
    + (if Given(q, "search") then [SearchCondition("'%" + esc(q["search"]) + "%'")] else [])
  }

  function SearchCondition(pattern: string): string {
    "(issuer_name LIKE " + pattern + " OR proposal LIKE " + pattern + " OR final_key LIKE " + pattern + ")"
  }

  function WhereClause(conditions: seq<string>): (r: string)
    ensures conditions == [] <==> r == ""
  {
    if conditions == [] then "" else "WHERE " + PyText.Join(conditions, " AND ")
  }

  /**
   * The category filter of the handler as written: MySQL reads a
   * backslash inside a literal as an escape, so a category `\'` ends the
   * literal early and whatever follows it is read as SQL.
   */
  lemma AsWrittenCategoryBreaks()
    ensures CsvDirect.ReadLiteral(Literal(DoubleQuotes, "\\'")) == None
  {
    var f := PyText.ReplaceFn('\'', "''");
    assert PyText.MapChars("'", f) == "''" + PyText.MapChars([], f);
    assert PyText.MapChars("\\'", f) == "\\" + PyText.MapChars("'", f);
    var lit := Literal(DoubleQuotes, "\\'");
    assert lit == "'\\'''";
    var body := lit[1..|lit| - 1];
    assert body == "\\''";
    assert body[2..] == "'";
  }

  /**
   * The conditions with literals escaped as the SQL dump renderer does
   * (quotes and backslashes doubled): every category MySQL reads back is
   * the category the client sent.
   */
  lemma CategoryLiteral(q: Query)
    requires Given(q, "category")
    ensures var c := Conditions(q, CsvDirect.Escape);
      exists lit :: "category = " + lit in c && CsvDirect.ReadLiteral(lit) == Some(q["category"])
  {
    var lit := Literal(CsvDirect.Escape, q["category"]);
    CsvDirect.QuotedRoundTrip(q["category"]);
    assert "category = " + lit in Conditions(q, CsvDirect.Escape);
  }

  datatype ProposalsReply =
    | ProposalsError
    | ProposalsPage(proposals: seq<Value>, currentPage: int, perPage: int, total: nat, totalPages: int)

  /**
   * `/api/proposals` once the count query returned `total` and the page
   * query `rows`; MySQL rejects a negative LIMIT or OFFSET, so a negative
   * page or limit is a database error whatever the oracle says.
   */
  function Proposals(q: Query, total: Option<nat>, rows: Option<seq<Value>>): (r: ProposalsReply)
    ensures r.ProposalsPage? <==> total.Some? && rows.Some? && ProposalsPaging(q).limit > 0 && ProposalsPaging(q).offset >= 0
    ensures r.ProposalsPage? ==>
      && r.proposals == rows.value && r.total == total.value
      && r.currentPage == ProposalsPaging(q).page && r.perPage == ProposalsPaging(q).limit
      && (r.totalPages - 1) * r.perPage < r.total <= r.totalPages * r.perPage
  {
    var p := ProposalsPaging(q);
    if total.None? || rows.None? || p.limit < 0 || p.offset < 0 then ProposalsError
    else ProposalsPage(rows.value, p.page, p.limit, total.value, CeilDiv(total.value, p.limit))
  }

  // ---------------------------------------------------------------- /api/proposal-accounts

  datatype KeyChoice = ByProposal(pm: int) | ByDirector(dm: int) | NoKeyGiven | NoValidKey

  /** A key that parses and is not the `-1` placeholder. */
  predicate Usable(k: Option<int>) {
    k.Some? && k.value != -1
  }

  /**
   * The key `/api/proposal-accounts` filters on: the proposal key when it
   * parses and is not -1, else the director key under the same test;
   * `NoKeyGiven` (400 "Provide ...") when neither parses, `NoValidKey`
   * (400 "No valid key provided") when what parses is -1.
   */
  function ChooseKey(q: Query): (r: KeyChoice)
    ensures var pm := ParseParam(Param(q, "proposal_master_skey"), false);
      var dm := ParseParam(Param(q, "director_master_skey"), false);
      && (r.NoKeyGiven? <==> pm.None? && dm.None?)
      && (r.ByProposal? <==> Usable(pm))
      && (r.ByProposal? ==> r.pm == pm.value)
      && (r.ByDirector? <==> !Usable(pm) && Usable(dm))
      && (r.ByDirector? ==> r.dm == dm.value)
      && (r.NoValidKey? <==> (pm.Some? || dm.Some?) && !Usable(pm) && !Usable(dm))
  {
    var pm := ParseParam(Param(q, "proposal_master_skey"), false);
    var dm := ParseParam(Param(q, "director_master_skey"), false);
    if pm.None? && dm.None? then NoKeyGiven
    else if Usable(pm) then ByProposal(pm.value)
    else if Usable(dm) then ByDirector(dm.value)
    else NoValidKey
  }

  /** A client that sends a rendered key gets that key; `-1` hands over to the director key. */
  lemma ChooseKeyOf(pm: int, dm: int)
    ensures pm != -1 ==>
      ChooseKey(map["proposal_master_skey" := ToStr(Num(pm)), "director_master_skey" := ToStr(Num(dm))]) == ByProposal(pm)
    ensures pm == -1 && dm != -1 ==>
      ChooseKey(map["proposal_master_skey" := ToStr(Num(pm)), "director_master_skey" := ToStr(Num(dm))]) == ByDirector(dm)
    ensures pm == -1 && dm == -1 ==>
      ChooseKey(map["proposal_master_skey" := ToStr(Num(pm)), "director_master_skey" := ToStr(Num(dm))]) == NoValidKey
  {
    var q := map["proposal_master_skey" := ToStr(Num(pm)), "director_master_skey" := ToStr(Num(dm))];
    KeyParams(pm, dm);
    var r := ChooseKey(q);
    if pm != -1 {
      assert r.ByProposal? && r.pm == pm;
    } else if dm != -1 {
      assert r.ByDirector? && r.dm == dm;
    } else {
      assert r.NoValidKey?;
    }
  }

  lemma KeyParams(pm: int, dm: int)
    ensures var q := map["proposal_master_skey" := ToStr(Num(pm)), "director_master_skey" := ToStr(Num(dm))];
      && ParseParam(Param(q, "proposal_master_skey"), false) == Some(pm)
      && ParseParam(Param(q, "director_master_skey"), false) == Some(dm)
  {
    var q := map["proposal_master_skey" := ToStr(Num(pm)), "director_master_skey" := ToStr(Num(dm))];
    assert Param(q, "proposal_master_skey") == Some(ToStr(Num(pm)));
    assert Param(q, "director_master_skey") == Some(ToStr(Num(dm)));
    ParseIntOfString(pm, false);
    ParseIntOfString(dm, false);
  }

  /** `${row.account_hash_key}_${row.proposal_master_skey}_${row.director_master_skey}`. */
  function CompositeKey(row: Value): string {
    ToStr(Get(row, "account_hash_key")) + "_" + ToStr(Get(row, "proposal_master_skey")) + "_" + ToStr(Get(row, "director_master_skey"))
  }

  /** The key columns as MySQL returns them: BIGINT or NULL. */
  predicate KeyColumn(v: Value) {
    v.Num? || v.Null?
  }

  predicate KeyedRow(row: Value) {
    KeyColumn(Get(row, "proposal_master_skey")) && KeyColumn(Get(row, "director_master_skey"))
  }

  /** The `in_outreach` flags of the unvoted rows, given the rows of the outreach check. */
  function InOutreach(unvoted: seq<Value>, outreach: seq<Value>): (r: seq<bool>)
    ensures |r| == |unvoted|
    ensures forall i :: 0 <= i < |unvoted| ==>
      (r[i] <==> exists o :: o in outreach && CompositeKey(o) == CompositeKey(unvoted[i]))
  {
    var keys := set o | o in outreach :: CompositeKey(o);
    seq(|unvoted|, i requires 0 <= i < |unvoted| => CompositeKey(unvoted[i]) in keys)
  }

  /** A key column renders without `_`, and differently for different values. */
  lemma KeyColumnText(a: Value, b: Value)
    requires KeyColumn(a) && KeyColumn(b)
    ensures '_' !in ToStr(a)
    ensures ToStr(a) == ToStr(b) <==> a == b
  {
    NoUnderscore(a);
    if a.Num? && b.Num? && ToStr(a) == ToStr(b) {
      ParseIntOfString(a.n, false);
      ParseIntOfString(b.n, false);
    } else if a.Num? && b.Null? {
      assert ToStr(a)[0] != 'n';
    } else if a.Null? && b.Num? {
      assert ToStr(b)[0] != 'n';
    }
  }

  lemma NoUnderscore(a: Value)
    requires KeyColumn(a)
    ensures '_' !in ToStr(a)
  {
    if a.Num? {
      var d := PyNum.NatToString(if a.n < 0 then -a.n else a.n);
      assert forall i :: 0 <= i < |d| ==> d[i] != '_';
      assert a.n < 0 ==> ToStr(a) == "-" + d;
    }
  }

  /** Splitting at the last `_` recovers both parts when the last part has none. */
  lemma SplitLast(x: string, y: string, x2: string, y2: string)
    requires '_' !in y && '_' !in y2
    requires x + "_" + y == x2 + "_" + y2
    ensures x == x2 && y == y2
  {
    UnderscoreNotLater(x, y, x2, y2);
    UnderscoreNotLater(x2, y2, x, y);
    var s := x + "_" + y;
    if |y| == |y2| {
      assert s[..|x|] == x && (x2 + "_" + y2)[..|x2|] == x2;
      assert s[|x| + 1..] == y && (x2 + "_" + y2)[|x2| + 1..] == y2;
    }
  }

  lemma UnderscoreNotLater(x: string, y: string, x2: string, y2: string)
    requires '_' !in y2
    requires x + "_" + y == x2 + "_" + y2
    ensures |x| <= |x2|
  {
    var s := x + "_" + y;
    assert s[|x|] == '_';
  }

  /**
   * For rows whose key columns are BIGINT or NULL the composite text is
   * faithful: two rows share it exactly when their hash keys render alike
   * and their two key columns are equal.
   */
  lemma CompositeKeyFaithful(a: Value, b: Value)
    requires KeyedRow(a) && KeyedRow(b)
    ensures CompositeKey(a) == CompositeKey(b) <==>
      && ToStr(Get(a, "account_hash_key")) == ToStr(Get(b, "account_hash_key"))
      && Get(a, "proposal_master_skey") == Get(b, "proposal_master_skey")
      && Get(a, "director_master_skey") == Get(b, "director_master_skey")
  {
    var (ha, pa, da) := (ToStr(Get(a, "account_hash_key")), Get(a, "proposal_master_skey"), Get(a, "director_master_skey"));
    var (hb, pb, db) := (ToStr(Get(b, "account_hash_key")), Get(b, "proposal_master_skey"), Get(b, "director_master_skey"));
    KeyColumnText(pa, pb);
    KeyColumnText(pb, pa);
    KeyColumnText(da, db);
    KeyColumnText(db, da);
    if CompositeKey(a) == CompositeKey(b) {
      assert (ha + "_" + ToStr(pa)) + "_" + ToStr(da) == (hb + "_" + ToStr(pb)) + "_" + ToStr(db);
      SplitLast(ha + "_" + ToStr(pa), ToStr(da), hb + "_" + ToStr(pb), ToStr(db));
      SplitLast(ha, ToStr(pa), hb, ToStr(pb));
    }
  }

  /** `{...row, in_outreach: flag}`. */
  function Enrich(row: Value, flag: bool): (r: Value)
    ensures Get(r, "in_outreach") == Bool(flag)
    ensures forall k :: k != "in_outreach" ==> Get(r, k) == Get(row, k)
  {
    if row.Obj? then Obj(row.fields["in_outreach" := Bool(flag)]) else Obj(map["in_outreach" := Bool(flag)])
  }

  /** `xs.map(f)`. */
  function MapSeq<A, B>(xs: seq<A>, f: A -> B): (r: seq<B>)
    ensures |r| == |xs| && forall i :: 0 <= i < |xs| ==> r[i] == f(xs[i])
  {
    seq(|xs|, i requires 0 <= i < |xs| => f(xs[i]))
  }

  /** `xs.map(f).filter(p)` holds exactly the images that pass `p`. */
  lemma FilterMapMembers<A, B>(xs: seq<A>, f: A -> B, p: B -> bool)
    ensures forall y :: y in ProposalsPredictions.Filter(MapSeq(xs, f), p) <==> p(y) && exists x :: x in xs && f(x) == y
  {
    var m := MapSeq(xs, f);
    ProposalsPredictions.FilterMembers(m, p);
    forall y | p(y) && exists x :: x in xs && f(x) == y
      ensures y in m
    {
      var x :| x in xs && f(x) == y;
      var i :| 0 <= i < |xs| && xs[i] == x;
      assert m[i] == y;
    }
    forall y | y in m
      ensures exists x :: x in xs && f(x) == y
    {
      var i :| 0 <= i < |m| && m[i] == y;
      assert xs[i] in xs;
    }
  }

  function HashKeyField(row: Value): Value {
    Get(row, "account_hash_key")
  }

  /** The hash keys sent to the outreach check: `unvotedRows.map(row => row.account_hash_key).filter(key => key)`. */
  function CheckedHashKeys(unvoted: seq<Value>): seq<Value> {
    ProposalsPredictions.Filter(MapSeq(unvoted, HashKeyField), Truthy)
  }

  /** The keys checked are the truthy hash keys of the unvoted rows. */
  lemma CheckedHashKeysMeaning(unvoted: seq<Value>)
    ensures forall v :: v in CheckedHashKeys(unvoted) <==> Truthy(v) && exists row :: row in unvoted && Get(row, "account_hash_key") == v
  {
    FilterMapMembers(unvoted, HashKeyField, Truthy);
  }

  datatype AccountsReply =
    | AccountsError(status: nat)
    | AccountsPage(
        voted: seq<Value>, unvoted: seq<Value>, page: int, perPage: int,
        votedTotal: nat, votedPages: Option<nat>, unvotedTotal: nat, unvotedPages: Option<nat>)

  /**
   * `Math.ceil(total / limit)` as JSON renders it: `None` is the `null`
   * that the Infinity or NaN of a zero limit becomes.
   */
  function TotalPages(total: nat, limit: int): (r: Option<nat>)
    requires limit >= 0
    ensures r.None? <==> limit == 0
    ensures r.Some? ==> (r.value - 1) * limit < total <= r.value * limit
  {
    if limit == 0 then None
    else
      var n := CeilDiv(total, limit);
      assert n >= 0;
      Some(n)
  }

  /** `unvotedRows.map(row => ({...row, in_outreach: ...}))` for the outreach rows `outreach`. */
  function EnrichAll(unvoted: seq<Value>, outreach: seq<Value>): (r: seq<Value>)
    ensures |r| == |unvoted|
  {
    var flags := InOutreach(unvoted, outreach);
    seq(|unvoted|, i requires 0 <= i < |unvoted| => Enrich(unvoted[i], flags[i]))
  }

  /** `parseInt(req.query[name] || dflt, 10)`; `None` is NaN. */
  function ParamOr(q: Query, name: string, dflt: string): Option<int> {
    ParseInt(if Given(q, name) then q[name] else dflt, false)
  }

  /**
   * `page`, `limit` and `offset` of `/api/proposal-accounts`, or `None`
   * when the page queries they go into are invalid: a NaN page or limit
   * (a parameter that does not parse), or a negative LIMIT or OFFSET,
   * which MySQL rejects.
   */
  function AccountsPaging(page: Option<int>, limit: Option<int>): (r: Option<Paging>)
    ensures r.Some? <==> page.Some? && limit.Some? && limit.value >= 0 && (page.value - 1) * limit.value >= 0
    ensures r.Some? ==> r.value == Paging(page.value, limit.value, (page.value - 1) * limit.value)
  {
    if page.None? || limit.None? then None
    else
      var offset := (page.value - 1) * limit.value;
      if limit.value < 0 || offset < 0 then None else Some(Paging(page.value, limit.value, offset))
  }

  /**
   * `/api/proposal-accounts` after the key choice: `votedCount` and
   * `unvotedCount` are the count queries' results, `voted` and `unvoted`
   * the page queries' and `outreach` the outreach check's, which is only
   * sent when some unvoted row has a hash key and whose failure leaves
   * every flag false.  Every failed query and invalid paging answers 500.
   */
  function ProposalAccounts(
    q: Query, votedCount: Option<nat>, unvotedCount: Option<nat>,
    voted: Option<seq<Value>>, unvoted: Option<seq<Value>>, outreach: Option<seq<Value>>): (r: AccountsReply)
    ensures ChooseKey(q).NoKeyGiven? || ChooseKey(q).NoValidKey? ==> r == AccountsError(400)
    ensures ChooseKey(q).ByProposal? || ChooseKey(q).ByDirector? ==> r == AccountsError(500) || r.AccountsPage?
    ensures r.AccountsPage? <==>
      && (ChooseKey(q).ByProposal? || ChooseKey(q).ByDirector?)
      && votedCount.Some? && unvotedCount.Some? && voted.Some? && unvoted.Some?
      && AccountsPaging(ParamOr(q, "page", "1"), ParamOr(q, "limit", "1000")).Some?
    ensures r.AccountsPage? ==>
      var paging := AccountsPaging(ParamOr(q, "page", "1"), ParamOr(q, "limit", "1000")).value;
      && r.voted == voted.value && |r.unvoted| == |unvoted.value|
      && r.page == paging.page && r.perPage == paging.limit
      && r.votedTotal == votedCount.value && r.unvotedTotal == unvotedCount.value
      && r.votedPages == TotalPages(votedCount.value, r.perPage)
      && r.unvotedPages == TotalPages(unvotedCount.value, r.perPage)
  {
    var key := ChooseKey(q);
    var paging := AccountsPaging(ParamOr(q, "page", "1"), ParamOr(q, "limit", "1000"));
    if key.NoKeyGiven? || key.NoValidKey? then AccountsError(400)
    else if votedCount.None? || unvotedCount.None? || paging.None? || voted.None? || unvoted.None? then AccountsError(500)
    else
      var checked := if CheckedHashKeys(unvoted.value) != [] && outreach.Some? then outreach.value else [];
      var limit := paging.value.limit;
      AccountsPage(
        voted.value, EnrichAll(unvoted.value, checked), paging.value.page, limit,
        votedCount.value, TotalPages(votedCount.value, limit),
        unvotedCount.value, TotalPages(unvotedCount.value, limit))
  }

  /**
   * Each unvoted row is returned with all its fields and an `in_outreach`
   * flag that is set exactly when the outreach check was sent, succeeded
   * and returned a row with the same composite key.
   */
  lemma ProposalAccountsFlags(
    q: Query, votedCount: Option<nat>, unvotedCount: Option<nat>,
    voted: Option<seq<Value>>, unvoted: Option<seq<Value>>, outreach: Option<seq<Value>>, i: nat)
    requires ProposalAccounts(q, votedCount, unvotedCount, voted, unvoted, outreach).AccountsPage?
    requires i < |unvoted.value|
    ensures var row := ProposalAccounts(q, votedCount, unvotedCount, voted, unvoted, outreach).unvoted[i];
      && (forall k :: k != "in_outreach" ==> Get(row, k) == Get(unvoted.value[i], k))
      && (Get(row, "in_outreach") == Bool(
            && CheckedHashKeys(unvoted.value) != [] && outreach.Some?
            && exists o :: o in outreach.value && CompositeKey(o) == CompositeKey(unvoted.value[i])))
  {
    var checked := if CheckedHashKeys(unvoted.value) != [] && outreach.Some? then outreach.value else [];
    var flags := InOutreach(unvoted.value, checked);
    assert ProposalAccounts(q, votedCount, unvotedCount, voted, unvoted, outreach).unvoted[i] == Enrich(unvoted.value[i], flags[i]);
  }

  // ---------------------------------------------------------------- /api/outreach/bulk-add

  datatype BulkError = NoAccounts | MissingKeyContext | InvalidKeyParam | NoHashKeys | DatabaseError

  function Message(e: BulkError): string {
    match e
    case NoAccounts => "No accounts provided"
    case MissingKeyContext => "Missing key_param/key_value context"
    case InvalidKeyParam => "Invalid key_param. Use proposal_master_skey or director_master_skey"
    case NoHashKeys => "No account_hash_key values provided"
    case DatabaseError => "Database error"
  }

  function Status(e: BulkError): nat {
    if e == DatabaseError then 500 else 400
  }

  /** `Array.isArray(req.body.accounts) ? req.body.accounts : []`. */
  function Accounts(body: Value): seq<Value> {
    var a := Get(body, "accounts");
    if a.Arr? then a.elems else []
  }

  function KeyParamOf(v: Value): Value {
    Or(Get(v, "key_param"), Get(v, "keyParam"))
  }

  function KeyValueOf(v: Value): Value {
    Coalesce(Get(v, "key_value"), Get(v, "keyValue"))
  }

  /** `accounts.find(a => a && (a.key_param || a.keyParam))`. */
  function Sample(accounts: seq<Value>): (r: Option<Value>)
    ensures r.None? <==> forall a :: a in accounts ==> !(Truthy(a) && Truthy(KeyParamOf(a)))
    ensures r.Some? ==> exists i :: (0 <= i < |accounts| && accounts[i] == r.value && Truthy(r.value) && Truthy(KeyParamOf(r.value))
      && forall j :: 0 <= j < i ==> !(Truthy(accounts[j]) && Truthy(KeyParamOf(accounts[j]))))
    decreases |accounts|
  {
    if accounts == [] then None
    else if Truthy(accounts[0]) && Truthy(KeyParamOf(accounts[0])) then Some(accounts[0])
    else
      var r := Sample(accounts[1..]);
      assert forall k :: 1 <= k < |accounts| ==> accounts[k] == accounts[1..][k - 1];
      r
  }

  /** The key context: from the body, else from the sample account. */
  function KeyParam(body: Value): Value {
    var sample := Sample(Accounts(body));
    Or(KeyParamOf(body), if sample.Some? then KeyParamOf(sample.value) else Null)
  }

  function KeyValue(body: Value): Value {
    var sample := Sample(Accounts(body));
    Coalesce(KeyValueOf(body), if sample.Some? then KeyValueOf(sample.value) else Null)
  }

  /** The identifier of an account: the first truthy of the four field names, stringified; `''` when none. */
  function HashKeyOf(a: Value): string {
    var h := Or(Or(Or(Get(a, "account_hash_key"), Get(a, "accountHashKey")), Get(a, "account_id")), Get(a, "id"));
    if Truthy(a) && Truthy(h) then ToStr(h) else ""
  }

  predicate NotBlank(v: string) {
    v != "" && Trim(v) != ""
  }

  /** `hashKeysRaw`: the identifiers of the accounts that are not blank, in order. */
  function RawHashKeys(accounts: seq<Value>): seq<string> {
    ProposalsPredictions.Filter(MapSeq(accounts, HashKeyOf), NotBlank)
  }

  datatype BulkRequest = BulkRequest(keyParam: string, keyValue: Value, hashKeys: seq<string>)

  /** The checks `/api/outreach/bulk-add` makes before its first query, in order. */
  function ValidateBulk(body: Value): (r: Result<BulkRequest, BulkError>)
    ensures r == Failure(NoAccounts) <==> Accounts(body) == []
    ensures r == Failure(MissingKeyContext) <==>
      Accounts(body) != [] && (!Truthy(KeyParam(body)) || Nullish(KeyValue(body)) || KeyValue(body) == Str(""))
    ensures r.Success? ==>
      && (r.value.keyParam == "proposal_master_skey" || r.value.keyParam == "director_master_skey")
      && KeyParam(body) == Str(r.value.keyParam)
      && r.value.keyValue == KeyValue(body) && !Nullish(r.value.keyValue) && r.value.keyValue != Str("")
      && r.value.hashKeys != [] && r.value.hashKeys == Dedup(RawHashKeys(Accounts(body)))
  {
    var accounts := Accounts(body);
    var kp := KeyParam(body);
    var kv := KeyValue(body);
    if accounts == [] then Failure(NoAccounts)
    else if !Truthy(kp) || Nullish(kv) || kv == Str("") then Failure(MissingKeyContext)
    else if kp != Str("proposal_master_skey") && kp != Str("director_master_skey") then Failure(InvalidKeyParam)
    else
      var keys := Dedup(RawHashKeys(accounts));
      if keys == [] then Failure(NoHashKeys) else Success(BulkRequest(kp.s, kv, keys))
  }

  /**
   * The identifiers sent to the queries (`Dedup(RawHashKeys(..))`, as
   * `ValidateBulk` says) are the non-blank identifiers of the accounts,
   * each once, in the order they first appear.
   */
  lemma BulkHashKeys(accounts: seq<Value>)
    ensures forall k :: k in Dedup(RawHashKeys(accounts)) <==> NotBlank(k) && exists a :: a in accounts && HashKeyOf(a) == k
    ensures Distinct(Dedup(RawHashKeys(accounts)))
    ensures forall k :: k in Dedup(RawHashKeys(accounts)) ==> k in RawHashKeys(accounts)
    ensures var keys := Dedup(RawHashKeys(accounts));
      forall i, j :: 0 <= i < j < |keys| ==> FirstAt(RawHashKeys(accounts), keys[i]) < FirstAt(RawHashKeys(accounts), keys[j])
  {
    FilterMapMembers(accounts, HashKeyOf, NotBlank);
    DedupMeaning(RawHashKeys(accounts));
  }

  /** A body whose accounts carry no identifier at all is refused, however the key context looks. */
  lemma NoIdentifierRefused(body: Value)
    requires Accounts(body) != []
    requires forall a :: a in Accounts(body) ==> HashKeyOf(a) == ""
    ensures ValidateBulk(body).Failure?
  {
    var accounts := Accounts(body);
    ProposalsPredictions.FilterNone(MapSeq(accounts, HashKeyOf), NotBlank);
    assert Dedup(RawHashKeys(accounts)) == [];
  }

  datatype BulkResult = BulkResult(inserted: nat, skipped: nat, duplicateMessages: seq<string>)

  function DuplicateMessage(row: Value): string {
    "account_hash_key(" + ToStr(Get(row, "account_hash_key")) + ")+proposal_master_skey(" + ToStr(Get(row, "proposal_master_skey"))
      + ")+director_master_skey(" + ToStr(Get(row, "director_master_skey")) + ") is not inserted because it is already in outreach table"
  }

  predicate AlreadyExists(row: Value) {
    Truthy(Get(row, "already_exists"))
  }

  /** The detail rows the INSERT IGNORE adds. */
  predicate ToInsert(row: Value) {
    !AlreadyExists(row)
  }

  /**
   * `/api/outreach/bulk-add`: after validation, the count query
   * (`countOk`), the detail query (`detail`) and the INSERT IGNORE
   * (`affected`, its `affectedRows`) are sent in turn; any failure is a
   * 500.  The rows already in outreach are the duplicates, one message
   * each.
   */
  function BulkAdd(body: Value, countOk: bool, detail: Option<seq<Value>>, affected: Option<Value>): (r: Result<BulkResult, BulkError>)
    ensures ValidateBulk(body).Failure? ==> r == Failure(ValidateBulk(body).error)
    ensures ValidateBulk(body).Success? ==> (r.Success? <==> countOk && detail.Some? && affected.Some?)
    ensures r.Success? ==>
      && r.value.skipped == |r.value.duplicateMessages|
      && r.value.duplicateMessages == MapSeq(ProposalsPredictions.Filter(detail.value, AlreadyExists), DuplicateMessage)
      && r.value.inserted == (if affected.value.Num? && affected.value.n >= 0 then affected.value.n else 0)
  {
    match ValidateBulk(body)
    case Failure(e) => Failure(e)
    case Success(_) =>
      if !countOk || detail.None? || affected.None? then Failure(DatabaseError)
      else
        var duplicates := ProposalsPredictions.Filter(detail.value, AlreadyExists);
        var inserted := if affected.value.Num? && affected.value.n >= 0 then affected.value.n else 0;
        Success(BulkResult(inserted, |duplicates|, MapSeq(duplicates, DuplicateMessage)))
  }

  /** The rows to insert and the duplicates split the detail rows: each row is in exactly one. */
  lemma {:induction false} DuplicatesSplitDetail(detail: seq<Value>)
    ensures var toInsert := ProposalsPredictions.Filter(detail, ToInsert);
      var duplicates := ProposalsPredictions.Filter(detail, AlreadyExists);
      && |toInsert| + |duplicates| == |detail|
      && multiset(toInsert) + multiset(duplicates) == multiset(detail)
    decreases |detail|
  {
    if detail != [] {
      var front := detail[..|detail| - 1];
      DuplicatesSplitDetail(front);
      assert detail == front + [detail[|detail| - 1]];
      ProposalsPredictions.FilterAppend(front, detail[|detail| - 1], ToInsert);
      ProposalsPredictions.FilterAppend(front, detail[|detail| - 1], AlreadyExists);
    }
  }

  // ---------------------------------------------------------------- insertAccountData

  datatype AccountRecord = AccountRecord(name: Value, votingStatus: Value, email: Value, phone: Value)

  function AccountId(row: Value): Value {
    Or(Or(Get(row, "account_id"), Get(row, "Account_ID")), Get(row, "id"))
  }

  predicate HasId(row: Value) {
    Truthy(AccountId(row))
  }

  /** The values bound to the INSERT of one row; a truthy `voted` (even the text "false") means voted. */
  function RecordOf(row: Value): (r: AccountRecord)
    ensures !Truthy(Get(row, "voting_status")) ==>
      r.votingStatus == (if Truthy(Get(row, "voted")) then Str("voted") else Str("unvoted"))
  {
    AccountRecord(
      Or(Or(Get(row, "account_name"), Get(row, "Account_Name")), Get(row, "name")),
      Or(Get(row, "voting_status"), if Truthy(Get(row, "voted")) then Str("voted") else Str("unvoted")),
      Or(Get(row, "contact_email"), Get(row, "email")),
      Or(Get(row, "contact_phone"), Get(row, "phone")))
  }

  /** What the `forEach` makes of one row: the upsert it sends, or nothing (an error) when it has no id. */
  datatype Upsert = Upsert(id: string, record: AccountRecord)

  function UpsertOf(row: Value): Option<Upsert> {
    if HasId(row) then Some(Upsert(ToStr(AccountId(row)), RecordOf(row))) else None
  }

  function Upserts(data: seq<Value>): (us: seq<Option<Upsert>>)
    ensures |us| == |data|
    ensures forall i :: 0 <= i < |data| ==> (us[i].Some? <==> HasId(data[i]))
    ensures forall i :: 0 <= i < |data| && HasId(data[i]) ==> us[i].value == Upsert(ToStr(AccountId(data[i])), RecordOf(data[i]))
  {
    MapSeq(data, UpsertOf)
  }

  /** The number of indices below `n` that satisfy `p`. */
  function CountBelow(n: nat, p: nat -> bool): (c: nat)
    ensures c <= n
  {
    if n == 0 then 0 else CountBelow(n - 1, p) + (if p(n - 1) then 1 else 0)
  }

  /** The rows that send an upsert. */
  function Sends(us: seq<Option<Upsert>>): nat -> bool {
    (i: nat) => i < |us| && us[i].Some?
  }

  /** The rows whose upsert succeeds. */
  function Stored(us: seq<Option<Upsert>>, ok: nat -> bool): nat -> bool {
    (i: nat) => i < |us| && us[i].Some? && ok(i)
  }

  /**
   * The accounts table, keyed by `account_id`, after the upserts `us[..n]`:
   * each upsert that succeeds (`ok`) replaces the record under its id.
   */
  function Upserted(table0: map<string, AccountRecord>, us: seq<Option<Upsert>>, ok: nat -> bool, n: nat): map<string, AccountRecord>
    requires n <= |us|
  {
    if n == 0 then table0
    else
      var t := Upserted(table0, us, ok, n - 1);
      if us[n - 1].Some? && ok(n - 1) then t[us[n - 1].value.id := us[n - 1].value.record] else t
  }

  /** An id is in the table afterwards exactly when it was before or some row with that id was stored. */
  lemma UpsertedKeys(table0: map<string, AccountRecord>, data: seq<Value>, ok: nat -> bool, id: string)
    ensures id in Upserted(table0, Upserts(data), ok, |data|) <==>
      id in table0 || exists i :: 0 <= i < |data| && HasId(data[i]) && ok(i) && ToStr(AccountId(data[i])) == id
  {
    UpsertedKeysBelow(table0, Upserts(data), ok, |data|, id);
  }

  lemma {:induction false} UpsertedKeysBelow(table0: map<string, AccountRecord>, us: seq<Option<Upsert>>, ok: nat -> bool, n: nat, id: string)
    requires n <= |us|
    ensures id in Upserted(table0, us, ok, n) <==>
      id in table0 || exists i :: 0 <= i < n && us[i].Some? && ok(i) && us[i].value.id == id
  {
    if n > 0 {
      UpsertedKeysBelow(table0, us, ok, n - 1, id);
    }
  }

  /** The record under an id is the one of the last row stored with that id. */
  lemma UpsertedLastWins(table0: map<string, AccountRecord>, data: seq<Value>, ok: nat -> bool, i: nat)
    requires i < |data| && HasId(data[i]) && ok(i)
    requires forall j :: i < j < |data| && HasId(data[j]) && ok(j) ==> ToStr(AccountId(data[j])) != ToStr(AccountId(data[i]))
    ensures ToStr(AccountId(data[i])) in Upserted(table0, Upserts(data), ok, |data|)
    ensures Upserted(table0, Upserts(data), ok, |data|)[ToStr(AccountId(data[i]))] == RecordOf(data[i])
  {
    LastWinsBelow(table0, Upserts(data), ok, |data|, i);
  }

  lemma {:induction false} LastWinsBelow(table0: map<string, AccountRecord>, us: seq<Option<Upsert>>, ok: nat -> bool, n: nat, i: nat)
    requires i < n <= |us| && us[i].Some? && ok(i)
    requires forall j :: i < j < n && us[j].Some? && ok(j) ==> us[j].value.id != us[i].value.id
    ensures us[i].value.id in Upserted(table0, us, ok, n)
    ensures Upserted(table0, us, ok, n)[us[i].value.id] == us[i].value.record
  {
    if i < n - 1 {
      LastWinsBelow(table0, us, ok, n - 1, i);
    }
  }

  datatype ImportReply = ImportReply(imported: nat, errors: nat)

  /**
   * `insertAccountData` as written: the `forEach` counts the rows without
   * an id as errors and sends one upsert per other row; each callback
   * counts its outcome and the one that brings `imported + errors` to
   * the number of rows sends the reply.  No callback runs when no row has
   * an id, so then no reply is ever sent (`None`).
   */
  method InsertAccountData(data: seq<Value>, ok: nat -> bool, table0: map<string, AccountRecord>)
    returns (reply: Option<ImportReply>, table: map<string, AccountRecord>)
    ensures table == Upserted(table0, Upserts(data), ok, |data|)
    ensures reply.Some? <==> exists i :: 0 <= i < |data| && HasId(data[i])
    ensures reply.Some? ==> reply.value == Counted(data, ok)
  {
    var imported, errors, sent;
    imported, errors, sent, table := RunInserts(data, ok, table0);
    reply := if sent then Some(ImportReply(imported, errors)) else None;
  }

  /** What `insertAccountData` reports: the rows stored, and all the others as errors. */
  function Counted(data: seq<Value>, ok: nat -> bool): (r: ImportReply)
    ensures r.imported + r.errors == |data|
  {
    var imported := CountBelow(|data|, Stored(Upserts(data), ok));
    ImportReply(imported, |data| - imported)
  }

  /** `queued` lists the indices below `upTo` that satisfy `has`, in increasing order. */
  ghost predicate Queue(has: nat -> bool, queued: seq<nat>, upTo: nat) {
    && (forall l :: 0 <= l < |queued| ==> queued[l] < upTo && has(queued[l]))
    && (forall l, m :: 0 <= l < m < |queued| ==> queued[l] < queued[m])
    && (forall j: nat :: j < upTo && has(j) ==> j in queued)
  }

  /** Nothing is queued exactly when no index satisfies `has`. */
  lemma QueueEmpty(has: nat -> bool, n: nat, queued: seq<nat>)
    requires Queue(has, queued, n)
    ensures |queued| > 0 <==> exists i: nat :: i < n && has(i)
  {
    if |queued| > 0 {
      assert has(queued[0]);
    }
  }

  /** The rows below `n` that send an upsert, in order. */
  function QueueOf(us: seq<Option<Upsert>>, n: nat): (queued: seq<nat>)
    requires n <= |us|
    ensures |queued| <= n
  {
    if n == 0 then [] else QueueOf(us, n - 1) + (if us[n - 1].Some? then [n - 1] else [])
  }

  /** The queue holds exactly the rows that send an upsert, each once and in order. */
  lemma {:induction false} QueueOfMeaning(us: seq<Option<Upsert>>, n: nat)
    requires n <= |us|
    ensures Queue(Sends(us), QueueOf(us, n), n)
  {
    if n > 0 {
      var prev := QueueOf(us, n - 1);
      QueueOfMeaning(us, n - 1);
      if us[n - 1].Some? {
        QueueAppend(Sends(us), prev, n - 1);
      } else {
        assert QueueOf(us, n) == prev;
        QueueSkip(Sends(us), prev, n - 1);
      }
    }
  }

  /** An index that fails `has` extends the range without joining the queue. */
  lemma QueueSkip(has: nat -> bool, queued: seq<nat>, i: nat)
    requires Queue(has, queued, i) && !has(i)
    ensures Queue(has, queued, i + 1)
  {
  }

  /** Appending an index that satisfies `has` to the queue of the indices below it. */
  lemma QueueAppend(has: nat -> bool, queued: seq<nat>, i: nat)
    requires Queue(has, queued, i) && has(i)
    ensures Queue(has, queued + [i], i + 1)
  {
    var q := queued + [i];
    forall j: nat | j < i + 1 && has(j)
      ensures j in q
    {
      if j < i {
        assert j in queued;
      } else {
        assert q[|queued|] == j;
      }
    }
  }

  /** The queue is as long as the number of rows that send an upsert. */
  lemma {:induction false} QueueOfCount(us: seq<Option<Upsert>>, n: nat)
    requires n <= |us|
    ensures |QueueOf(us, n)| == CountBelow(n, Sends(us))
  {
    if n > 0 {
      QueueOfCount(us, n - 1);
      assert Sends(us)(n - 1) == us[n - 1].Some?;
    }
  }

  /** The `forEach`: a row without an id is an error, every other row sends its upsert. */
  method QueueRows(us: seq<Option<Upsert>>) returns (queued: seq<nat>, errors: nat)
    ensures queued == QueueOf(us, |us|)
    ensures errors == |us| - |queued|
  {
    errors := 0;
    queued := [];
    var i := 0;
    while i < |us|
      invariant i <= |us|
      invariant queued == QueueOf(us, i)
      invariant errors == i - |queued|
    {
      if us[i].Some? {
        queued := queued + [i];
      } else {
        errors := errors + 1;
      }
      i := i + 1;
    }
  }

  /** Where the callbacks have reached once `k` of them ran: the next queued row, or the end `n`. */
  function Reached(n: nat, queued: seq<nat>, k: nat): nat
    requires k <= |queued|
  {
    if k < |queued| then queued[k] else n
  }

  /**
   * The `forEach` and then the callbacks, in the order their queries
   * were sent; `sent` says whether a callback sent the reply.
   */
  method RunInserts(data: seq<Value>, ok: nat -> bool, table0: map<string, AccountRecord>)
    returns (imported: nat, errors: nat, sent: bool, table: map<string, AccountRecord>)
    ensures table == Upserted(table0, Upserts(data), ok, |data|)
    ensures sent <==> exists i :: 0 <= i < |data| && HasId(data[i])
    ensures ImportReply(imported, errors) == Counted(data, ok)
  {
    var us := Upserts(data);
    var queued;
    queued, errors := QueueRows(us);
    QueueOfMeaning(us, |us|);
    QueueOfCount(us, |us|);
    QueueEmpty(Sends(us), |us|, queued);
    if |queued| > 0 {
      var i: nat :| i < |us| && Sends(us)(i);
      assert HasId(data[i]);
    } else {
      forall i | 0 <= i < |data|
        ensures !HasId(data[i])
      {
        assert !Sends(us)(i);
      }
    }
    imported, errors, sent, table := RunCallbacks(us, ok, table0, queued, errors);
  }

  /** The callbacks, in the order their queries were sent. */
  method RunCallbacks(us: seq<Option<Upsert>>, ok: nat -> bool, table0: map<string, AccountRecord>, queued: seq<nat>, errors0: nat)
    returns (imported: nat, errors: nat, sent: bool, table: map<string, AccountRecord>)
    requires Queue(Sends(us), queued, |us|) && errors0 == |us| - |queued|
    ensures table == Upserted(table0, us, ok, |us|)
    ensures sent <==> |queued| > 0
    ensures imported == CountBelow(|us|, Stored(us, ok)) && errors == |us| - imported
  {
    errors := errors0;
    imported := 0;
    sent := false;
    table := table0;
    CallbacksStart(table0, us, ok, queued);
    var k := 0;
    while k < |queued|
      invariant k <= |queued|
      invariant imported <= k
      invariant errors == (|us| - |queued|) + (k - imported)
      invariant sent <==> k > 0 && k == |queued|
      invariant table == Upserted(table0, us, ok, Reached(|us|, queued, k))
      invariant imported == CountBelow(Reached(|us|, queued, k), Stored(us, ok))
    {
      var j := queued[k];
      UpsertStep(table0, us, ok, queued, k);
      CountStep(us, ok, queued, k);
      if ok(j) {
        imported := imported + 1;
        table := table[us[j].value.id := us[j].value.record];
      } else {
        errors := errors + 1;
      }
      if imported + errors == |us| {
        sent := true;
      }
      k := k + 1;
    }
  }

  /** Before the first callback, nothing is stored. */
  lemma CallbacksStart(table0: map<string, AccountRecord>, us: seq<Option<Upsert>>, ok: nat -> bool, queued: seq<nat>)
    requires Queue(Sends(us), queued, |us|)
    ensures Upserted(table0, us, ok, Reached(|us|, queued, 0)) == table0
    ensures CountBelow(Reached(|us|, queued, 0), Stored(us, ok)) == 0
  {
    NoneBetween(Sends(us), |us|, queued, 0);
    UpsertedSkip(table0, us, ok, 0, Reached(|us|, queued, 0));
    CountSkip(us, ok, 0, Reached(|us|, queued, 0));
  }

  /** The callback of queued row `queued[k]` stores it when its upsert succeeds, and no other row is stored up to the next one. */
  lemma UpsertStep(table0: map<string, AccountRecord>, us: seq<Option<Upsert>>, ok: nat -> bool, queued: seq<nat>, k: nat)
    requires Queue(Sends(us), queued, |us|) && k < |queued|
    ensures var j := queued[k];
      var t := Upserted(table0, us, ok, Reached(|us|, queued, k));
      us[j].Some? &&
      Upserted(table0, us, ok, Reached(|us|, queued, k + 1)) == (if ok(j) then t[us[j].value.id := us[j].value.record] else t)
  {
    var j := queued[k];
    NoneBetween(Sends(us), |us|, queued, k + 1);
    UpsertedSkip(table0, us, ok, j + 1, Reached(|us|, queued, k + 1));
  }

  /** The callback of queued row `queued[k]` counts it as imported when its upsert succeeds. */
  lemma CountStep(us: seq<Option<Upsert>>, ok: nat -> bool, queued: seq<nat>, k: nat)
    requires Queue(Sends(us), queued, |us|) && k < |queued|
    ensures CountBelow(Reached(|us|, queued, k + 1), Stored(us, ok)) ==
      CountBelow(Reached(|us|, queued, k), Stored(us, ok)) + (if ok(queued[k]) then 1 else 0)
  {
    var j := queued[k];
    NoneBetween(Sends(us), |us|, queued, k + 1);
    CountSkip(us, ok, j + 1, Reached(|us|, queued, k + 1));
  }

  /** Between two queued indices (or after the last, up to `n`) none satisfies `has`. */
  lemma NoneBetween(has: nat -> bool, n: nat, queued: seq<nat>, k: nat)
    requires k <= |queued| && Queue(has, queued, n)
    ensures var lo := if k == 0 then 0 else queued[k - 1] + 1;
      lo <= Reached(n, queued, k) && forall j: nat :: lo <= j < Reached(n, queued, k) ==> !has(j)
  {
  }

  lemma {:induction false} UpsertedSkip(table0: map<string, AccountRecord>, us: seq<Option<Upsert>>, ok: nat -> bool, a: nat, b: nat)
    requires a <= b <= |us|
    requires forall j: nat :: a <= j < b ==> !Sends(us)(j)
    ensures Upserted(table0, us, ok, b) == Upserted(table0, us, ok, a)
    decreases b
  {
    if a < b {
      assert !Sends(us)(b - 1);
      UpsertedSkip(table0, us, ok, a, b - 1);
    }
  }

  lemma {:induction false} CountSkip(us: seq<Option<Upsert>>, ok: nat -> bool, a: nat, b: nat)
    requires a <= b
    requires forall j: nat :: a <= j < b ==> !Sends(us)(j)
    ensures CountBelow(b, Stored(us, ok)) == CountBelow(a, Stored(us, ok))
    decreases b
  {
    if a < b {
      assert !Sends(us)(b - 1);
      assert !Stored(us, ok)(b - 1);
      CountSkip(us, ok, a, b - 1);
    }
  }

  /**
   * The evidently intended `insertAccountData`: the reply is also sent
   * when every row was refused before reaching the database.
   */
  method InsertAccountDataReplying(data: seq<Value>, ok: nat -> bool, table0: map<string, AccountRecord>)
    returns (reply: ImportReply, table: map<string, AccountRecord>)
    ensures table == Upserted(table0, Upserts(data), ok, |data|)
    ensures reply == Counted(data, ok)
  {
    var imported, errors, sent;
    imported, errors, sent, table := RunInserts(data, ok, table0);
    reply := ImportReply(imported, errors);
  }

  /** A file of one row without an id: the handler as written never replies. */
  lemma AsWrittenNoReply()
    ensures !exists i :: 0 <= i < |[Obj(map[])]| && HasId([Obj(map[])][i])
  {
  }
}
