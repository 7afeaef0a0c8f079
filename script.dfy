/**
 * The decisions public/script.js takes on what the server returns: HTML
 * escaping, the page window of the proposals table, the sort state and
 * the sort of the proposals, the confusion-matrix counts, the row keys of
 * the unvoted-account checkboxes and the header order of the
 * proposal-accounts tables.  The DOM is left out: a renderer is modelled
 * by the items or strings it would write.
 */
module Script {
  import opened Wrappers
  import opened JsValue
  import PyText
  import PyNum
  import ProposalsPredictions

  // ---------------------------------------------------------------- escapeHtml

  /** The text `escapeHtml` writes for one character. */
  function Entity(c: char): string {
    if c == '&' then "&amp;"
    else if c == '<' then "&lt;"
    else if c == '>' then "&gt;"
    else if c == '"' then "&quot;"
    else if c == '\'' then "&#39;"
    else [c]
  }

  /** `escapeHtml`: `''` for `null` and `undefined`, else `String(str)` through the five global replacements, `&` first. */
  function EscapeHtml(v: Value): string {
    if Nullish(v) then ""
    else
      var s := ToStr(v);
      PyText.ReplaceChar(PyText.ReplaceChar(PyText.ReplaceChar(PyText.ReplaceChar(PyText.ReplaceChar(
        s, '&', "&amp;"), '<', "&lt;"), '>', "&gt;"), '"', "&quot;"), '\'', "&#39;")
  }

  /** What the chain has made of a character after the replacements of `&` and `<`. */
  function AfterLt(c: char): string {
    if c == '<' then "&lt;" else PyText.ReplaceFn('&', "&amp;")(c)
  }

  /** ... after `>`. */
  function AfterGt(c: char): string {
    if c == '>' then "&gt;" else AfterLt(c)
  }

  /** ... after `"`. */
  function AfterQuot(c: char): string {
    if c == '"' then "&quot;" else AfterGt(c)
  }

  /**
   * One replacement of `c0` applied to what an earlier step made of `c`:
   * either `c` itself, which is replaced when it is `c0`, or an entity
   * that holds no `c0` and is left alone.
   */
  lemma ReplaceOne(x: string, c: char, c0: char, rep: string)
    requires x == [c] || c0 !in x
    ensures PyText.MapChars(x, PyText.ReplaceFn(c0, rep)) == if c == c0 && x == [c] then rep else x
  {
    if x == [c] {
      assert x[1..] == [];
    } else {
      PyText.MapCharsIdentity(x, c0, rep);
    }
  }

  lemma LtStage()
    ensures forall c :: PyText.MapChars(PyText.ReplaceFn('&', "&amp;")(c), PyText.ReplaceFn('<', "&lt;")) == AfterLt(c)
  {
    forall c
      ensures PyText.MapChars(PyText.ReplaceFn('&', "&amp;")(c), PyText.ReplaceFn('<', "&lt;")) == AfterLt(c)
    {
      ReplaceOne(PyText.ReplaceFn('&', "&amp;")(c), c, '<', "&lt;");
    }
  }

  lemma GtStage()
    ensures forall c :: PyText.MapChars(AfterLt(c), PyText.ReplaceFn('>', "&gt;")) == AfterGt(c)
  {
    forall c
      ensures PyText.MapChars(AfterLt(c), PyText.ReplaceFn('>', "&gt;")) == AfterGt(c)
    {
      ReplaceOne(AfterLt(c), c, '>', "&gt;");
    }
  }

  lemma QuotStage()
    ensures forall c :: PyText.MapChars(AfterGt(c), PyText.ReplaceFn('"', "&quot;")) == AfterQuot(c)
  {
    forall c
      ensures PyText.MapChars(AfterGt(c), PyText.ReplaceFn('"', "&quot;")) == AfterQuot(c)
    {
      ReplaceOne(AfterGt(c), c, '"', "&quot;");
    }
  }

  lemma AposStage()
    ensures forall c :: PyText.MapChars(AfterQuot(c), PyText.ReplaceFn('\'', "&#39;")) == Entity(c)
  {
    forall c
      ensures PyText.MapChars(AfterQuot(c), PyText.ReplaceFn('\'', "&#39;")) == Entity(c)
    {
      ReplaceOne(AfterQuot(c), c, '\'', "&#39;");
    }
  }

  /**
   * Because `&` is replaced first, no replacement touches the text of an
   * earlier one: the chain writes each character's entity.
   */
  lemma EscapeHtmlPerChar(v: Value)
    requires !Nullish(v)
    ensures EscapeHtml(v) == PyText.MapChars(ToStr(v), Entity)
  {
    var s := ToStr(v);
    var s1 := PyText.MapChars(s, PyText.ReplaceFn('&', "&amp;"));
    LtStage();
    PyText.MapCharsCompose(s, PyText.ReplaceFn('&', "&amp;"), PyText.ReplaceFn('<', "&lt;"), AfterLt);
    var s2 := PyText.MapChars(s, AfterLt);
    GtStage();
    PyText.MapCharsCompose(s, AfterLt, PyText.ReplaceFn('>', "&gt;"), AfterGt);
    var s3 := PyText.MapChars(s, AfterGt);
    QuotStage();
    PyText.MapCharsCompose(s, AfterGt, PyText.ReplaceFn('"', "&quot;"), AfterQuot);
    AposStage();
    PyText.MapCharsCompose(s, AfterQuot, PyText.ReplaceFn('\'', "&#39;"), Entity);
  }

  /** The characters that would open markup or end an attribute value. */
  predicate Markup(c: char) {
    c == '<' || c == '>' || c == '"' || c == '\''
  }

  /** Escaped text holds none of them. */
  lemma {:induction false} EscapedHasNoMarkup(s: string)
    ensures forall i :: 0 <= i < |PyText.MapChars(s, Entity)| ==> !Markup(PyText.MapChars(s, Entity)[i])
    decreases |s|
  {
    if s != [] {
      EscapedHasNoMarkup(s[1..]);
      var e := Entity(s[0]);
      assert forall i :: 0 <= i < |e| ==> !Markup(e[i]);
    }
  }

  /** The decoding an HTML parser applies to the five entities in text. */
  function Unescape(t: string): string
    decreases |t|
  {
    if t == [] then []
    else if t[0] != '&' then [t[0]] + Unescape(t[1..])
    else if PyText.StartsWith(t, "&amp;") then "&" + Unescape(t[5..])
    else if PyText.StartsWith(t, "&lt;") then "<" + Unescape(t[4..])
    else if PyText.StartsWith(t, "&gt;") then ">" + Unescape(t[4..])
    else if PyText.StartsWith(t, "&quot;") then "\"" + Unescape(t[6..])
    else if PyText.StartsWith(t, "&#39;") then "'" + Unescape(t[5..])
    else [t[0]] + Unescape(t[1..])
  }

  /** The page shows exactly the text that was escaped. */
  lemma {:induction false} UnescapeEscaped(s: string)
    ensures Unescape(PyText.MapChars(s, Entity)) == s
    decreases |s|
  {
    if s != [] {
      UnescapeEscaped(s[1..]);
      UnescapeStep(s[0], PyText.MapChars(s[1..], Entity));
    }
  }

  lemma UnescapeStep(c: char, rest: string)
    ensures Unescape(Entity(c) + rest) == [c] + Unescape(rest)
  {
    if c == '&' || c == '<' || c == '>' {
      UnescapeShort(c, rest);
    } else if c == '"' || c == '\'' {
      UnescapeLong(c, rest);
    } else {
      var t := [c] + rest;
      assert t[0] == c && t[1..] == rest;
    }
  }

  lemma UnescapeShort(c: char, rest: string)
    requires c == '&' || c == '<' || c == '>'
    ensures Unescape(Entity(c) + rest) == [c] + Unescape(rest)
  {
    if c == '&' {
      UnescapeEntity(c, "&amp;", rest);
    } else if c == '<' {
      UnescapeEntity(c, "&lt;", rest);
      assert !PyText.StartsWith("&lt;" + rest, "&amp;");
    } else {
      UnescapeEntity(c, "&gt;", rest);
      assert !PyText.StartsWith("&gt;" + rest, "&amp;");
      assert !PyText.StartsWith("&gt;" + rest, "&lt;");
    }
  }

  lemma UnescapeLong(c: char, rest: string)
    requires c == '"' || c == '\''
    ensures Unescape(Entity(c) + rest) == [c] + Unescape(rest)
  {
    if c == '"' {
      UnescapeEntity(c, "&quot;", rest);
      assert !PyText.StartsWith("&quot;" + rest, "&amp;");
      assert !PyText.StartsWith("&quot;" + rest, "&lt;");
      assert !PyText.StartsWith("&quot;" + rest, "&gt;");
    } else {
      UnescapeEntity(c, "&#39;", rest);
      assert !PyText.StartsWith("&#39;" + rest, "&amp;");
      assert !PyText.StartsWith("&#39;" + rest, "&lt;");
      assert !PyText.StartsWith("&#39;" + rest, "&gt;");
      assert !PyText.StartsWith("&#39;" + rest, "&quot;");
    }
  }

  /** The text after an entity is what follows it. */
  lemma UnescapeEntity(c: char, e: string, rest: string)
    requires |e| >= 4
    ensures PyText.StartsWith(e + rest, e) && (e + rest)[|e|..] == rest
    ensures (e + rest)[1] == e[1]
  {
    assert (e + rest)[..|e|] == e;
  }

  // ---------------------------------------------------------------- renderProposalsPagination

  datatype PageItem = Previous(target: int) | PageLink(page: int, active: bool) | Next(target: int)

  function Max(a: int, b: int): int {
    if a >= b then a else b
  }

  function Min(a: int, b: int): int {
    if a <= b then a else b
  }

  /** The link to page `p`, active when it is the current page. */
  function Link(p: int, current: int): PageItem {
    PageLink(p, p == current)
  }

  /** `n` consecutive page links from page `lo`. */
  function Links(lo: int, n: nat, current: int): (r: seq<PageItem>)
    ensures |r| == n
  {
    if n == 0 then [] else Links(lo, n - 1, current) + [Link(lo + n - 1, current)]
  }

  /** The number of pages from `lo` to `hi`. */
  function Span(lo: int, hi: int): nat {
    if hi >= lo then hi - lo + 1 else 0
  }

  /** The items `renderProposalsPagination` writes for page `current` of `totalPages`. */
  function Pagination(current: int, totalPages: int): seq<PageItem> {
    if totalPages <= 1 then []
    else
      (if current > 1 then [Previous(current - 1)] else [])
      + Links(Max(1, current - 2), Span(Max(1, current - 2), Min(totalPages, current + 2)), current)
      + (if current < totalPages then [Next(current + 1)] else [])
  }

  /** `renderProposalsPagination`, with the list items it appends. */
  method RenderProposalsPagination(current: int, totalPages: int) returns (items: seq<PageItem>)
    ensures items == Pagination(current, totalPages)
  {
    if totalPages <= 1 {
      return [];
    }
    items := if current > 1 then [Previous(current - 1)] else [];
    ghost var prefix := items;
    var startPage := Max(1, current - 2);
    var endPage := Min(totalPages, current + 2);
    var i := startPage;
    while i <= endPage
      invariant startPage <= i && (i <= endPage + 1 || i == startPage)
      invariant items == prefix + Links(startPage, i - startPage, current)
    {
      items := items + [Link(i, current)];
      i := i + 1;
    }
    assert i - startPage == Span(startPage, endPage);
    if current < totalPages {
      items := items + [Next(current + 1)];
    }
  }

  lemma {:induction false} LinksAt(lo: int, n: nat, current: int, k: nat)
    requires k < n
    ensures Links(lo, n, current)[k] == Link(lo + k, current)
    decreases n
  {
    if k < n - 1 {
      LinksAt(lo, n - 1, current, k);
    }
  }

  /** The page window: the pages around `current` that exist, at most five. */
  lemma WindowBounds(current: int, totalPages: int)
    requires totalPages > 1
    ensures var lo := Max(1, current - 2);
      var hi := Min(totalPages, current + 2);
      && 1 <= lo && hi <= totalPages && Span(lo, hi) <= 5
      && (lo <= current <= hi <==> 1 <= current <= totalPages)
  {
  }

  /**
   * Nothing is shown for a single page.  Otherwise "Previous" leads the
   * list exactly when `current > 1` and "Next" ends it exactly when
   * `current < totalPages`; in between are the page links of the window.
   */
  lemma PaginationShape(current: int, totalPages: int)
    ensures totalPages <= 1 ==> Pagination(current, totalPages) == []
    ensures totalPages > 1 ==>
      var items := Pagination(current, totalPages);
      var lo := Max(1, current - 2);
      var links := Span(lo, Min(totalPages, current + 2));
      var first := if current > 1 then 1 else 0;
      && |items| == first + links + (if current < totalPages then 1 else 0)
      && (current > 1 <==> items[0] == Previous(current - 1))
      && (current < totalPages <==> items[|items| - 1] == Next(current + 1))
      && items[first..first + links] == Links(lo, links, current)
  {
    if totalPages > 1 {
      var items := Pagination(current, totalPages);
      var lo := Max(1, current - 2);
      var links := Span(lo, Min(totalPages, current + 2));
      var first := if current > 1 then 1 else 0;
      assert items[first..first + links] == Links(lo, links, current);
      if current <= 1 && links > 0 {
        LinksAt(lo, links, current, 0);
        assert items[0] == Link(lo, current);
      }
      if current >= totalPages {
        if links > 0 {
          assert items[|items| - 1] == Link(lo + links - 1, current);
        } else {
          assert items == [Previous(current - 1)];
        }
      }
    }
  }

  /** Every page link shown is a page of the window, active exactly when it is the current page. */
  lemma LinksInWindow(current: int, totalPages: int)
    requires totalPages > 1
    ensures var lo := Max(1, current - 2);
      var hi := Min(totalPages, current + 2);
      forall it :: it in Pagination(current, totalPages) && it.PageLink? ==>
        lo <= it.page <= hi && 1 <= it.page <= totalPages && (it.active <==> it.page == current)
  {
    var lo := Max(1, current - 2);
    var hi := Min(totalPages, current + 2);
    var ls := Links(lo, Span(lo, hi), current);
    var before: seq<PageItem> := if current > 1 then [Previous(current - 1)] else [];
    var after: seq<PageItem> := if current < totalPages then [Next(current + 1)] else [];
    assert Pagination(current, totalPages) == before + ls + after;
    forall it | it in ls
      ensures it.PageLink? && lo <= it.page <= hi && (it.active <==> it.page == current)
    {
      var k :| 0 <= k < |ls| && ls[k] == it;
      LinksAt(lo, Span(lo, hi), current, k);
    }
  }

  /** Every page of the window is shown. */
  lemma WindowShown(current: int, totalPages: int)
    requires totalPages > 1
    ensures var lo := Max(1, current - 2);
      var hi := Min(totalPages, current + 2);
      forall p :: lo <= p <= hi ==> Link(p, current) in Pagination(current, totalPages)
  {
    var lo := Max(1, current - 2);
    var hi := Min(totalPages, current + 2);
    var ls := Links(lo, Span(lo, hi), current);
    var before: seq<PageItem> := if current > 1 then [Previous(current - 1)] else [];
    var after: seq<PageItem> := if current < totalPages then [Next(current + 1)] else [];
    assert Pagination(current, totalPages) == before + ls + after;
    forall p | lo <= p <= hi
      ensures Link(p, current) in ls
    {
      LinksAt(lo, Span(lo, hi), current, p - lo);
    }
  }

  /**
   * The page links are exactly the pages of the window, each page of it
   * shown, the current one active and no other; the current page is
   * marked exactly when it exists.
   */
  lemma PaginationLinks(current: int, totalPages: int)
    requires totalPages > 1
    ensures var items := Pagination(current, totalPages);
      var lo := Max(1, current - 2);
      var hi := Min(totalPages, current + 2);
      && (forall it :: it in items && it.PageLink? ==>
            lo <= it.page <= hi && 1 <= it.page <= totalPages && (it.active <==> it.page == current))
      && (forall p :: lo <= p <= hi ==> Link(p, current) in items)
      && (PageLink(current, true) in items <==> 1 <= current <= totalPages)
  {
    LinksInWindow(current, totalPages);
    WindowShown(current, totalPages);
    WindowBounds(current, totalPages);
    if 1 <= current <= totalPages {
      assert Link(current, current) == PageLink(current, true);
    }
  }

  // ---------------------------------------------------------------- sort state

  datatype Dir = Asc | Desc

  /** `{ field, dir }`; the field is `null` until a header is clicked. */
  datatype SortState = SortState(field: Option<string>, dir: Dir)

  const Unsorted := SortState(None, Asc)

  /** The toggle of `toggleProposalSort` and `toggleSort`. */
  function Toggled(s: SortState, field: string): SortState {
    if s.field == Some(field) then SortState(s.field, if s.dir == Asc then Desc else Asc)
    else SortState(Some(field), Asc)
  }

  /**
   * A click sorts by the clicked field; the direction flips when it was
   * already the sort field and starts ascending otherwise, so two clicks
   * on the same field restore the state when it was already sorted by it,
   * and a click on another field always starts ascending.
   */
  lemma ToggleMeaning(s: SortState, field: string, other: string)
    ensures Toggled(s, field).field == Some(field)
    ensures Toggled(s, field).dir == Asc <==> s.field != Some(field) || s.dir == Desc
    ensures s.field == Some(field) ==> Toggled(Toggled(s, field), field) == s
    ensures s.field != Some(field) ==> Toggled(Toggled(s, field), field) == SortState(Some(field), Desc)
    ensures other != field ==> Toggled(Toggled(s, field), other) == SortState(Some(other), Asc)
  {
  }

  /** The sort states of the two account tables, keyed by side, after `toggleSort(field, side)`. */
  function ToggleSide(states: map<string, SortState>, field: string, side: string): (r: map<string, SortState>)
    ensures side in r && r[side] == Toggled(if side in states then states[side] else Unsorted, field)
    ensures forall s :: s in r ==> s == side || s in states
    ensures forall s :: s != side ==> (s in r <==> s in states) && (s in states ==> r[s] == states[s])
  {
    states[side := Toggled(if side in states then states[side] else Unsorted, field)]
  }

  /** The sort state of the accounts view (`currentProposalAccountsState.sortState`). */
  class AccountsView {
    var sortStates: map<string, SortState>

    constructor ()
      ensures sortStates == map[]
    {
      sortStates := map[];
    }

    /** `toggleSort(field, sidePrefix)`: a side seen for the first time starts unsorted. */
    method ToggleSort(field: string, side: string)
      modifies this
      ensures sortStates == ToggleSide(old(sortStates), field, side)
    {
      var current := if side in sortStates then sortStates[side] else Unsorted;
      sortStates := sortStates[side := Toggled(current, field)];
    }
  }

  // ---------------------------------------------------------------- applySortingToProposals

  /** JavaScript's `a < b` on strings: lexicographic on characters, a proper prefix first. */
  predicate LexLess(a: string, b: string)
    decreases |a|
  {
    if a == [] then b != []
    else b != [] && (a[0] < b[0] || (a[0] == b[0] && LexLess(a[1..], b[1..])))
  }

  /** `<` on strings is a strict total order. */
  lemma {:induction false} LexTotal(a: string, b: string)
    ensures !(LexLess(a, b) && LexLess(b, a))
    ensures a == b <==> !LexLess(a, b) && !LexLess(b, a)
    decreases |a|
  {
    if a != [] && b != [] {
      LexTotal(a[1..], b[1..]);
      if a[0] == b[0] && a[1..] == b[1..] {
        assert a == [a[0]] + a[1..] && b == [b[0]] + b[1..];
      }
    }
  }

  lemma {:induction false} LexTrans(a: string, b: string, c: string)
    requires LexLess(a, b) && LexLess(b, c)
    ensures LexLess(a, c)
    decreases |a|
  {
    if a != [] && a[0] == b[0] && b[0] == c[0] {
      LexTrans(a[1..], b[1..], c[1..]);
    }
  }

  /**
   * What the comparator compares: `String(v ?? '').toLowerCase()` of the
   * field.  `lower` is JavaScript's `toLowerCase`, which maps the whole of
   * Unicode (and may change a string's length), so it is a parameter.
   */
  function SortKey(lower: string -> string, row: Value, field: string): string {
    var v := Get(row, field);
    lower(ToStr(if Nullish(v) then Str("") else v))
  }

  /** The comparator of `applySortingToProposals`: -1, 0 or 1 on the keys, negated for descending. */
  function Compare(lower: string -> string, field: string, dir: Dir, a: Value, b: Value): (r: int)
    ensures r == -1 || r == 0 || r == 1
  {
    var ka := SortKey(lower, a, field);
    var kb := SortKey(lower, b, field);
    var c := if LexLess(ka, kb) then -1 else if LexLess(kb, ka) then 1 else 0;
    if dir == Asc then c else -c
  }

  /** `a` may stay before `b` in the sorted array. */
  function InOrder(lower: string -> string, field: string, dir: Dir): (Value, Value) -> bool {
    (a, b) => Compare(lower, field, dir, a, b) <= 0
  }

  /**
   * The comparator orders rows by key, ascending or descending, and ties
   * exactly the rows whose keys are equal.
   */
  lemma CompareMeaning(lower: string -> string, field: string, dir: Dir, a: Value, b: Value)
    ensures Compare(lower, field, dir, a, b) == 0 <==> SortKey(lower, a, field) == SortKey(lower, b, field)
    ensures Compare(lower, field, dir, a, b) == -Compare(lower, field, dir, b, a)
    ensures dir == Asc ==> (Compare(lower, field, dir, a, b) < 0 <==> LexLess(SortKey(lower, a, field), SortKey(lower, b, field)))
    ensures dir == Desc ==> (Compare(lower, field, dir, a, b) < 0 <==> LexLess(SortKey(lower, b, field), SortKey(lower, a, field)))
  {
    LexTotal(SortKey(lower, a, field), SortKey(lower, b, field));
  }

  /** An order `sort` can follow: every pair comparable, and transitive. */
  ghost predicate TotalPreorder(le: (Value, Value) -> bool) {
    && (forall x, y :: le(x, y) || le(y, x))
    && (forall x, y, z :: le(x, y) && le(y, z) ==> le(x, z))
  }

  lemma InOrderTotal(lower: string -> string, field: string, dir: Dir)
    ensures TotalPreorder(InOrder(lower, field, dir))
  {
    var le := InOrder(lower, field, dir);
    forall x, y
      ensures le(x, y) || le(y, x)
    {
      CompareMeaning(lower, field, dir, x, y);
    }
    forall x, y, z | le(x, y) && le(y, z)
      ensures le(x, z)
    {
      var kx, ky, kz := SortKey(lower, x, field), SortKey(lower, y, field), SortKey(lower, z, field);
      LexTotal(kx, ky);
      LexTotal(ky, kz);
      LexTotal(kx, kz);
      if dir == Asc {
        if LexLess(kz, kx) {
          if kx == ky { LexTotal(kz, ky); } else if ky == kz { } else {
            assert LexLess(kx, ky) && LexLess(ky, kz);
            LexTrans(kx, ky, kz);
          }
        }
      } else {
        if LexLess(kx, kz) {
          if kx == ky { } else if ky == kz { } else {
            assert LexLess(kz, ky) && LexLess(ky, kx);
            LexTrans(kz, ky, kx);
          }
        }
      }
    }
  }

  /** Every earlier element may stay before every later one. */
  ghost predicate SortedBy(s: seq<Value>, le: (Value, Value) -> bool) {
    forall i, j :: 0 <= i < j < |s| ==> le(s[i], s[j])
  }

  /**
   * `array.sort(comparator)` on a comparator that is a total preorder:
   * the array ends up a permutation of itself in comparator order.  The
   * order of equal elements is not stated.
   */
  method SortArray(a: array<Value>, le: (Value, Value) -> bool)
    requires TotalPreorder(le)
    modifies a
    ensures SortedBy(a[..], le)
    ensures multiset(a[..]) == multiset(old(a[..]))
  {
    var i := 1;
    while i < a.Length
      invariant 1 <= i || a.Length == 0
      invariant forall k, l :: 0 <= k < l < i && l < a.Length ==> le(a[k], a[l])
      invariant multiset(a[..]) == multiset(old(a[..]))
    {
      InsertLast(a, i, le);
      assert forall k, l :: 0 <= k < l < i + 1 && l < a.Length ==> le(a[k], a[l]);
      i := i + 1;
    }
  }

  /** One pass of the insertion: `a[i]` moves down past every element it must not follow. */
  method InsertLast(a: array<Value>, i: nat, le: (Value, Value) -> bool)
    requires TotalPreorder(le) && i < a.Length
    requires forall k, l :: 0 <= k < l < i ==> le(a[k], a[l])
    modifies a
    ensures forall k, l :: 0 <= k < l <= i ==> le(a[k], a[l])
    ensures a[i + 1..] == old(a[i + 1..])
    ensures multiset(a[..]) == multiset(old(a[..]))
  {
    var j := i;
    while j > 0 && !le(a[j - 1], a[j])
      invariant 0 <= j <= i
      invariant Inserting(a[..], i, j, le)
      invariant a[i + 1..] == old(a[i + 1..])
      invariant multiset(a[..]) == multiset(old(a[..]))
    {
      ghost var s := a[..];
      a[j - 1], a[j] := a[j], a[j - 1];
      assert a[..] == s[j - 1 := s[j]][j := s[j - 1]];
      SwapStep(s, i, j, le);
      j := j - 1;
    }
    InsertDone(a[..], i, j, le);
  }

  /**
   * Mid-pass: the first `i + 1` elements are in order except around the
   * moving element at `j`, which may precede everything after it.
   */
  ghost predicate Inserting(s: seq<Value>, i: nat, j: nat, le: (Value, Value) -> bool)
    requires j <= i < |s|
  {
    && (forall k, l :: 0 <= k < l <= i && k != j && l != j ==> le(s[k], s[l]))
    && (forall l :: j < l <= i ==> le(s[j], s[l]))
  }

  lemma SwapStep(s: seq<Value>, i: nat, j: nat, le: (Value, Value) -> bool)
    requires TotalPreorder(le) && 0 < j <= i < |s|
    requires Inserting(s, i, j, le) && !le(s[j - 1], s[j])
    ensures Inserting(s[j - 1 := s[j]][j := s[j - 1]], i, j - 1, le)
  {
    var t := s[j - 1 := s[j]][j := s[j - 1]];
    assert le(s[j], s[j - 1]);
    forall k, l | 0 <= k < l <= i && k != j - 1 && l != j - 1
      ensures le(t[k], t[l])
    {
      if l == j {
        assert t[l] == s[j - 1];
      } else if k == j {
        assert t[k] == s[j - 1];
      }
    }
  }

  lemma InsertDone(s: seq<Value>, i: nat, j: nat, le: (Value, Value) -> bool)
    requires TotalPreorder(le) && j <= i < |s|
    requires Inserting(s, i, j, le) && (j == 0 || le(s[j - 1], s[j]))
    ensures forall k, l :: 0 <= k < l <= i ==> le(s[k], s[l])
  {
    forall k, l | 0 <= k < l <= i
      ensures le(s[k], s[l])
    {
      if l == j && k < j - 1 {
        assert le(s[k], s[j - 1]);
      }
    }
  }

  /**
   * `proposalsSortState` and the `proposals` array the table shows.
   * `proposals` is reassigned by each load, so the class holds the array
   * the page currently renders.
   */
  class ProposalsTable {
    var sortState: SortState
    var proposals: array<Value>

    constructor (rows: array<Value>)
      ensures sortState == Unsorted && proposals == rows
    {
      sortState := Unsorted;
      proposals := rows;
    }

    /**
     * The effective `applySortingToProposals`: nothing happens until a
     * field is chosen (`null` or `''`); then the rows are reordered, none
     * lost or added, by the string of the field lower-cased by `lower`,
     * `null` and `undefined` as `''`, descending when the direction is
     * `desc`.
     */
    method ApplySortingToProposals(lower: string -> string)
      modifies proposals
      ensures sortState.field.None? || sortState.field == Some("") ==> proposals[..] == old(proposals[..])
      ensures sortState.field.Some? && sortState.field != Some("") ==>
        SortedBy(proposals[..], InOrder(lower, sortState.field.value, sortState.dir))
      ensures multiset(proposals[..]) == multiset(old(proposals[..]))
    {
      if sortState.field.None? || sortState.field == Some("") {
        return;
      }
      InOrderTotal(lower, sortState.field.value, sortState.dir);
      SortArray(proposals, InOrder(lower, sortState.field.value, sortState.dir));
    }

    /** `toggleProposalSort(field)`: toggle the state, then sort by it. */
    method ToggleProposalSort(field: string, lower: string -> string)
      modifies this, proposals
      ensures sortState == Toggled(old(sortState), field) && proposals == old(proposals)
      ensures field != "" ==> SortedBy(proposals[..], InOrder(lower, field, sortState.dir))
      ensures field == "" ==> proposals[..] == old(proposals[..])
      ensures multiset(proposals[..]) == multiset(old(proposals[..]))
    {
      sortState := Toggled(sortState, field);
      ApplySortingToProposals(lower);
    }
  }

  /**
   * What a sorted table means for the keys: ascending keys never go down
   * and descending keys never go up.
   */
  lemma SortedMeaning(lower: string -> string, s: seq<Value>, field: string, dir: Dir, i: int, j: int)
    requires SortedBy(s, InOrder(lower, field, dir)) && 0 <= i < j < |s|
    ensures dir == Asc ==> !LexLess(SortKey(lower, s[j], field), SortKey(lower, s[i], field))
    ensures dir == Desc ==> !LexLess(SortKey(lower, s[i], field), SortKey(lower, s[j], field))
  {
    assert InOrder(lower, field, dir)(s[i], s[j]);
    CompareMeaning(lower, field, dir, s[i], s[j]);
  }

  // ---------------------------------------------------------------- calculateRealConfusionMatrix

  /** The base a `0x`, `0o` or `0b` prefix selects in a numeric string. */
  function PrefixRadix(t: string): Option<nat> {
    if |t| < 2 || t[0] != '0' then None
    else if t[1] == 'x' || t[1] == 'X' then Some(16)
    else if t[1] == 'o' || t[1] == 'O' then Some(8)
    else if t[1] == 'b' || t[1] == 'B' then Some(2)
    else None
  }

  /**
   * ToNumber of a string, where the result is an integer: surrounding
   * whitespace is ignored, the empty string is 0, a prefixed literal is
   * read in its base and anything else must be one optional sign and
   * decimal digits.  `None` stands for NaN and for the numbers that are
   * not integers.
   */
  function StringToInt(s: string): (r: Option<int>)
    ensures Trim(s) == "" ==> r == Some(0)
  {
    var t := Trim(s);
    if t == "" then Some(0)
    else match PrefixRadix(t)
      case Some(radix) =>
        var digits := t[2..];
        if digits != [] && DigitRun(digits, radix) == |digits| then Some(RadixValue(digits, radix)) else None
      case None => PyNum.ParseSignedDigits(t)
  }

  /** How deep `==` has to convert a value before it compares numbers or strings. */
  function ConversionRank(v: Value): nat {
    if v.Bool? then 2 else if v.Arr? || v.Obj? then 1 else 0
  }

  /**
   * Loose equality `a == b`: `null` and `undefined` equal each other and
   * nothing else; values of one type compare directly; a boolean becomes
   * 0 or 1, an array or object its string, and a string compared with a
   * number becomes a number.
   */
  predicate LooseEq(a: Value, b: Value)
    decreases ConversionRank(a) + ConversionRank(b)
  {
    if Nullish(a) || Nullish(b) then Nullish(a) && Nullish(b)
    else if a.Bool? && b.Bool? then a.b == b.b
    else if a.Num? && b.Num? then a.n == b.n
    else if a.Str? && b.Str? then a.s == b.s
    else if (a.Arr? || a.Obj?) && (b.Arr? || b.Obj?) then a == b
    else if a.Bool? then LooseEq(Num(if a.b then 1 else 0), b)
    else if b.Bool? then LooseEq(a, Num(if b.b then 1 else 0))
    else if a.Arr? || a.Obj? then LooseEq(Str(ToStr(a)), b)
    else if b.Arr? || b.Obj? then LooseEq(a, Str(ToStr(b)))
    else if a.Num? then StringToInt(b.s) == Some(a.n)
    else StringToInt(a.s) == Some(b.n)
  }

  /** The text `String` gives an integer reads back as that integer. */
  lemma StringToIntOfString(n: int)
    ensures StringToInt(PyNum.IntToString(n)) == Some(n)
  {
    var t := PyNum.IntToString(n);
    IntStringTrimmed(n);
    IntStringUnprefixed(n);
    PlainStringToInt(t);
    PyNum.IntToStringParts(n);
    var d := PyNum.NatToString(if n < 0 then -n else n);
    assert PyNum.Signed(n < 0, PyNum.DecValue(d)) == n;
  }

  /** A trimmed text without a base prefix is read as a signed run of decimal digits. */
  lemma PlainStringToInt(t: string)
    requires t != [] && Trim(t) == t && PrefixRadix(t) == None
    ensures StringToInt(t) == PyNum.ParseSignedDigits(t)
  {
  }

  /** The text of an integer starts with `-` or a digit and ends with a digit. */
  lemma IntStringTrimmed(n: int)
    ensures Trim(PyNum.IntToString(n)) == PyNum.IntToString(n)
  {
    var d := PyNum.NatToString(if n < 0 then -n else n);
    var t := PyNum.IntToString(n);
    assert t == if n < 0 then "-" + d else d;
    assert PyText.IsDigit(t[|t| - 1]);
    assert PyText.IsDigit(d[0]);
    TrimmedAlready(t);
  }

  lemma TrimmedAlready(t: string)
    requires t != [] && !IsJsSpace(t[0]) && !IsJsSpace(t[|t| - 1])
    ensures Trim(t) == t
  {
    assert TrimStart(t) == t;
    assert TrimEnd(t) == t;
  }

  /** ... and carries no base prefix. */
  lemma IntStringUnprefixed(n: int)
    ensures PrefixRadix(PyNum.IntToString(n)) == None
  {
    var d := PyNum.NatToString(if n < 0 then -n else n);
    assert PyText.IsDigit(d[0]);
    if n >= 0 && |d| >= 2 {
      assert PyText.IsDigit(d[1]);
    }
  }

  /** A numeric id equals its own text, whichever side it is on: a selector's string finds its row. */
  lemma IdMatchesItsText(n: int)
    ensures LooseEq(Num(n), Str(ToStr(Num(n)))) && LooseEq(Str(ToStr(Num(n))), Num(n))
  {
    assert ToStr(Num(n)) == PyNum.IntToString(n);
    StringToIntOfString(n);
  }

  /** `proposals.filter(p => p.id == proposalId)` when `proposalId` is truthy, else every proposal. */
  function Selected(proposals: seq<Value>, proposalId: Value): seq<Value> {
    if Truthy(proposalId) then ProposalsPredictions.Filter(proposals, SameId(proposalId)) else proposals
  }

  function SameId(proposalId: Value): Value -> bool {
    p => LooseEq(Get(p, "id"), proposalId)
  }

  /** The rows analysed are the proposals whose `id` loosely equals a truthy `proposalId`, or all of them. */
  lemma SelectedMeaning(proposals: seq<Value>, proposalId: Value)
    ensures Truthy(proposalId) ==> forall p :: p in Selected(proposals, proposalId) <==>
      p in proposals && LooseEq(Get(p, "id"), proposalId)
    ensures !Truthy(proposalId) ==> Selected(proposals, proposalId) == proposals
  {
    ProposalsPredictions.FilterMembers(proposals, SameId(proposalId));
  }

  /** A proposal the matrix counts: an `approved` value, and both share predictions or `prediction_correct`. */
  predicate HasMatrixData(p: Value) {
    && !Nullish(Get(p, "approved"))
    && ((Get(p, "predicted_for_shares") != Undefined && Get(p, "predicted_against_shares") != Undefined)
        || Get(p, "prediction_correct") != Undefined)
  }

  /** `approved === true || approved === 1`. */
  predicate ActuallyApproved(p: Value) {
    Get(p, "approved") == Bool(true) || Get(p, "approved") == Num(1)
  }

  /**
   * The predicted outcome: from `prediction_correct` when it is defined,
   * else from the two share predictions, else from `for_percentage`.  The
   * share and percentage comparisons are on floats and come in as
   * `sharesFor` (`parseFloat(for) || 0 > parseFloat(against) || 0`) and
   * `overHalf` (`parseFloat(for_percentage) || 0 > 0.5`).
   */
  predicate PredictedApproved(p: Value, sharesFor: Value -> bool, overHalf: Value -> bool) {
    if Get(p, "prediction_correct") != Undefined then
      (if Truthy(Get(p, "prediction_correct")) then ActuallyApproved(p) else !ActuallyApproved(p))
    else if Get(p, "predicted_for_shares") != Undefined && Get(p, "predicted_against_shares") != Undefined then
      sharesFor(p)
    else if Get(p, "for_percentage") != Undefined then overHalf(p)
    else false
  }

  datatype Matrix = Matrix(truePositive: nat, falsePositive: nat, falseNegative: nat, trueNegative: nat)

  /** The cell a proposal falls in. */
  datatype CellKind = TruePositive | FalsePositive | FalseNegative | TrueNegative

  function KindOf(p: Value, sharesFor: Value -> bool, overHalf: Value -> bool): CellKind {
    var predicted := PredictedApproved(p, sharesFor, overHalf);
    var actual := ActuallyApproved(p);
    if predicted && actual then TruePositive
    else if predicted then FalsePositive
    else if actual then FalseNegative
    else TrueNegative
  }

  /** One increment of the `forEach` body. */
  function Record(m: Matrix, k: CellKind): Matrix {
    match k
    case TruePositive => m.(truePositive := m.truePositive + 1)
    case FalsePositive => m.(falsePositive := m.falsePositive + 1)
    case FalseNegative => m.(falseNegative := m.falseNegative + 1)
    case TrueNegative => m.(trueNegative := m.trueNegative + 1)
  }

  function Total(m: Matrix): nat {
    m.truePositive + m.falsePositive + m.falseNegative + m.trueNegative
  }

  /** The four counters after the loop over `rows`. */
  function Tally(rows: seq<Value>, sharesFor: Value -> bool, overHalf: Value -> bool): Matrix
    decreases |rows|
  {
    if rows == [] then Matrix(0, 0, 0, 0)
    else Record(Tally(rows[..|rows| - 1], sharesFor, overHalf), KindOf(rows[|rows| - 1], sharesFor, overHalf))
  }

  /** Every row lands in exactly one cell. */
  lemma {:induction false} TallyTotal(rows: seq<Value>, sharesFor: Value -> bool, overHalf: Value -> bool)
    ensures Total(Tally(rows, sharesFor, overHalf)) == |rows|
    decreases |rows|
  {
    if rows != [] {
      var init := rows[..|rows| - 1];
      TallyTotal(init, sharesFor, overHalf);
      RecordTotal(Tally(init, sharesFor, overHalf), KindOf(rows[|rows| - 1], sharesFor, overHalf));
    }
  }

  /** One increment adds one to the total. */
  lemma RecordTotal(m: Matrix, k: CellKind)
    ensures Total(Record(m, k)) == Total(m) + 1
  {
  }

  lemma TallySnoc(rows: seq<Value>, i: nat, sharesFor: Value -> bool, overHalf: Value -> bool)
    requires i < |rows|
    ensures Tally(rows[..i + 1], sharesFor, overHalf) == Record(Tally(rows[..i], sharesFor, overHalf), KindOf(rows[i], sharesFor, overHalf))
  {
    assert rows[..i + 1][..i] == rows[..i];
  }

  /** The counter loop of `calculateRealConfusionMatrix` over the valid proposals. */
  method CountCells(valid: seq<Value>, sharesFor: Value -> bool, overHalf: Value -> bool) returns (m: Matrix)
    ensures m == Tally(valid, sharesFor, overHalf)
  {
    m := Matrix(0, 0, 0, 0);
    var i := 0;
    while i < |valid|
      invariant i <= |valid|
      invariant m == Tally(valid[..i], sharesFor, overHalf)
    {
      var p := valid[i];
      ghost var before := m;
      var actuallyApproved := ActuallyApproved(p);
      var predictedApproved := PredictedApproved(p, sharesFor, overHalf);
      if predictedApproved && actuallyApproved {
        m := m.(truePositive := m.truePositive + 1);
      } else if predictedApproved && !actuallyApproved {
        m := m.(falsePositive := m.falsePositive + 1);
      } else if !predictedApproved && actuallyApproved {
        m := m.(falseNegative := m.falseNegative + 1);
      } else {
        m := m.(trueNegative := m.trueNegative + 1);
      }
      assert m == Record(before, KindOf(p, sharesFor, overHalf));
      TallySnoc(valid, i, sharesFor, overHalf);
      i := i + 1;
    }
    assert valid[..i] == valid;
  }

  /** The matrix and the `dataInfo` counts; the metrics are floating point and left out. */
  datatype Confusion = Confusion(matrix: Matrix, totalProposals: nat, validProposals: nat)

  /**
   * `calculateRealConfusionMatrix(proposalId)`: the proposals selected by
   * id, those of them with matrix data, and the four cells over those;
   * all zero when none has data.
   */
  method CalculateRealConfusionMatrix(proposals: seq<Value>, proposalId: Value, sharesFor: Value -> bool, overHalf: Value -> bool)
    returns (r: Confusion)
    ensures var analysed := Selected(proposals, proposalId);
      var valid := ProposalsPredictions.Filter(analysed, HasMatrixData);
      && r.totalProposals == |analysed| && r.validProposals == |valid|
      && r.matrix == Tally(valid, sharesFor, overHalf)
      && Total(r.matrix) == r.validProposals
      && (r.validProposals == 0 ==> r.matrix == Matrix(0, 0, 0, 0))
  {
    var dataToAnalyze := proposals;
    if Truthy(proposalId) {
      dataToAnalyze := ProposalsPredictions.Filter(proposals, SameId(proposalId));
    }
    var validProposals := ProposalsPredictions.Filter(dataToAnalyze, HasMatrixData);
    if |validProposals| == 0 {
      return Confusion(Matrix(0, 0, 0, 0), |dataToAnalyze|, 0);
    }
    var m := CountCells(validProposals, sharesFor, overHalf);
    TallyTotal(validProposals, sharesFor, overHalf);
    r := Confusion(m, |dataToAnalyze|, |validProposals|);
  }

  function IsKind(k: CellKind, sharesFor: Value -> bool, overHalf: Value -> bool): Value -> bool {
    p => KindOf(p, sharesFor, overHalf) == k
  }

  /** The counter of a cell. */
  function Cell(m: Matrix, k: CellKind): nat {
    match k
    case TruePositive => m.truePositive
    case FalsePositive => m.falsePositive
    case FalseNegative => m.falseNegative
    case TrueNegative => m.trueNegative
  }

  /** Each cell counts exactly the rows of its kind. */
  lemma {:induction false} TallyMeaning(rows: seq<Value>, sharesFor: Value -> bool, overHalf: Value -> bool, k: CellKind)
    ensures Cell(Tally(rows, sharesFor, overHalf), k) == |ProposalsPredictions.Filter(rows, IsKind(k, sharesFor, overHalf))|
    decreases |rows|
  {
    if rows != [] {
      var init := rows[..|rows| - 1];
      TallyMeaning(init, sharesFor, overHalf, k);
      var m := Tally(init, sharesFor, overHalf);
      var k' := KindOf(rows[|rows| - 1], sharesFor, overHalf);
      assert Cell(Record(m, k'), k) == Cell(m, k) + (if k == k' then 1 else 0);
    }
  }

  /**
   * With `prediction_correct` defined, the prediction agrees with the
   * outcome exactly when `prediction_correct` is truthy.
   */
  lemma PredictionCorrectMeaning(p: Value, sharesFor: Value -> bool, overHalf: Value -> bool)
    requires Get(p, "prediction_correct") != Undefined
    ensures PredictedApproved(p, sharesFor, overHalf) == ActuallyApproved(p) <==> Truthy(Get(p, "prediction_correct"))
    ensures KindOf(p, sharesFor, overHalf) in {TruePositive, TrueNegative} <==> Truthy(Get(p, "prediction_correct"))
  {
  }

  predicate MarkedCorrect(p: Value) {
    Truthy(Get(p, "prediction_correct"))
  }

  /**
   * When every row carries `prediction_correct`, the diagonal of the
   * matrix counts the rows marked correct.
   */
  lemma {:induction false} DiagonalCountsCorrect(rows: seq<Value>, sharesFor: Value -> bool, overHalf: Value -> bool)
    requires forall i :: 0 <= i < |rows| ==> Get(rows[i], "prediction_correct") != Undefined
    ensures var m := Tally(rows, sharesFor, overHalf);
      m.truePositive + m.trueNegative == |ProposalsPredictions.Filter(rows, MarkedCorrect)|
    decreases |rows|
  {
    if rows != [] {
      var last := rows[|rows| - 1];
      DiagonalCountsCorrect(rows[..|rows| - 1], sharesFor, overHalf);
      PredictionCorrectMeaning(last, sharesFor, overHalf);
    }
  }

  /**
   * Every proposal with matrix data is decided by `prediction_correct` or
   * by the share predictions: the `for_percentage` branch never decides a
   * counted row.
   */
  lemma ForPercentageUnused(p: Value, sharesFor: Value -> bool, overHalf: Value -> bool, overHalf2: Value -> bool)
    requires HasMatrixData(p)
    ensures PredictedApproved(p, sharesFor, overHalf) == PredictedApproved(p, sharesFor, overHalf2)
  {
  }

  // ---------------------------------------------------------------- row keys of the unvoted checkboxes

  /** `v !== undefined && v !== null && v !== ''`. */
  predicate Present(v: Value) {
    !Nullish(v) && v != Str("")
  }

  /** The characters the class `[a-zA-Z0-9_.:\-]` admits. */
  predicate Allowed(c: char) {
    ('a' <= c <= 'z') || ('A' <= c <= 'Z') || ('0' <= c <= '9') || c == '_' || c == '.' || c == ':' || c == '-'
  }

  /** A character outside the basic plane is two UTF-16 code units, and the regular expression sees both. */
  function Units(c: char): nat {
    if c as int >= 0x1_0000 then 2 else 1
  }

  /** The UTF-16 length of a string, which is what JavaScript's `length` counts. */
  function Utf16Length(s: string): nat
    decreases |s|
  {
    if s == [] then 0 else Utf16Length(s[..|s| - 1]) + Units(s[|s| - 1])
  }

  /** What `replace(/[^a-zA-Z0-9_.:\-]/g, '_')` writes for one character: one `_` per code unit it replaces. */
  function SanitizeChar(c: char): string {
    if Allowed(c) then [c] else if Units(c) == 2 then "__" else "_"
  }

  function Sanitize(s: string): string {
    PyText.MapChars(s, SanitizeChar)
  }

  /** The sanitised key is made of allowed characters only. */
  lemma {:induction false} SanitizeAllowed(s: string)
    ensures forall i :: 0 <= i < |Sanitize(s)| ==> Allowed(Sanitize(s)[i])
    decreases |s|
  {
    if s != [] {
      SanitizeAllowed(s[1..]);
      var e := SanitizeChar(s[0]);
      var t := Sanitize(s[1..]);
      assert Sanitize(s) == e + t;
      forall i | 0 <= i < |e + t|
        ensures Allowed((e + t)[i])
      {
        if i >= |e| {
          assert (e + t)[i] == t[i - |e|];
        }
      }
    }
  }

  /** ... and leaves a key of allowed characters as it is. */
  lemma {:induction false} SanitizeKeepsAllowed(s: string)
    requires forall i :: 0 <= i < |s| ==> Allowed(s[i])
    ensures Sanitize(s) == s
    decreases |s|
  {
    if s != [] {
      SanitizeKeepsAllowed(s[1..]);
    }
  }

  /** ... and is as long in UTF-16 code units as the raw key. */
  lemma {:induction false} SanitizeLength(s: string)
    ensures Utf16Length(Sanitize(s)) == Utf16Length(s)
    decreases |s|
  {
    if s != [] {
      SanitizeLength(s[1..]);
      var e := SanitizeChar(s[0]);
      Utf16Split(e, Sanitize(s[1..]));
      Utf16Split([s[0]], s[1..]);
      assert [s[0]] + s[1..] == s;
      assert Utf16Length([s[0]]) == Units(s[0]);
      if Units(s[0]) == 2 {
        assert Utf16Length(e) == Units(e[0]) + Units(e[1]);
      }
    }
  }

  lemma {:induction false} Utf16Split(a: string, b: string)
    ensures Utf16Length(a + b) == Utf16Length(a) + Utf16Length(b)
    decreases |b|
  {
    if b == [] {
      assert a + b == a;
    } else {
      Utf16Split(a, b[..|b| - 1]);
      assert (a + b)[..|a + b| - 1] == a + b[..|b| - 1];
    }
  }

  /** Sanitising twice is sanitising once. */
  lemma SanitizeIdempotent(s: string)
    ensures Sanitize(Sanitize(s)) == Sanitize(s)
  {
    SanitizeAllowed(s);
    SanitizeKeepsAllowed(Sanitize(s));
  }

  /**
   * The checkbox row key: `acc_` and the account id when it is present,
   * else `hash_` and the hash key when that is, else `idx_` and the row
   * index; then every character outside the class becomes `_`.
   */
  function RowKey(row: Value, idx: nat): string {
    var keyRaw :=
      if Present(Get(row, "account_id")) then "acc_" + ToStr(Get(row, "account_id"))
      else if Present(Get(row, "account_hash_key")) then "hash_" + ToStr(Get(row, "account_hash_key"))
      else "idx_" + ToStr(Num(idx));
    Sanitize(keyRaw)
  }

  lemma SanitizePrefixed(prefix: string, s: string)
    requires forall i :: 0 <= i < |prefix| ==> Allowed(prefix[i])
    ensures Sanitize(prefix + s) == prefix + Sanitize(s)
  {
    PyText.MapCharsAppend(prefix, s, SanitizeChar);
    SanitizeKeepsAllowed(prefix);
  }

  /** Every character of a row key is allowed. */
  lemma RowKeyAllowed(row: Value, idx: nat)
    ensures forall i :: 0 <= i < |RowKey(row, idx)| ==> Allowed(RowKey(row, idx)[i])
  {
    if Present(Get(row, "account_id")) {
      SanitizeAllowed("acc_" + ToStr(Get(row, "account_id")));
    } else if Present(Get(row, "account_hash_key")) {
      SanitizeAllowed("hash_" + ToStr(Get(row, "account_hash_key")));
    } else {
      SanitizeAllowed("idx_" + ToStr(Num(idx)));
    }
  }

  /**
   * Which source the key comes from: the account id when it is present,
   * else the hash key when that is, else the row index; the prefix is
   * kept and the value sanitised.
   */
  lemma RowKeyMeaning(row: Value, idx: nat)
    ensures Present(Get(row, "account_id")) ==>
      RowKey(row, idx) == "acc_" + Sanitize(ToStr(Get(row, "account_id")))
    ensures !Present(Get(row, "account_id")) && Present(Get(row, "account_hash_key")) ==>
      RowKey(row, idx) == "hash_" + Sanitize(ToStr(Get(row, "account_hash_key")))
    ensures !Present(Get(row, "account_id")) && !Present(Get(row, "account_hash_key")) ==>
      RowKey(row, idx) == "idx_" + ToStr(Num(idx))
  {
    if Present(Get(row, "account_id")) {
      SanitizePrefixed("acc_", ToStr(Get(row, "account_id")));
    } else if Present(Get(row, "account_hash_key")) {
      SanitizePrefixed("hash_", ToStr(Get(row, "account_hash_key")));
    } else {
      SanitizePrefixed("idx_", ToStr(Num(idx)));
      IntTextAllowed(idx);
      SanitizeKeepsAllowed(ToStr(Num(idx)));
    }
  }

  /** The text of an integer is `-` and digits, all allowed. */
  lemma IntTextAllowed(n: int)
    ensures forall i :: 0 <= i < |ToStr(Num(n))| ==> Allowed(ToStr(Num(n))[i])
  {
    var d := PyNum.NatToString(if n < 0 then -n else n);
    assert ToStr(Num(n)) == if n < 0 then "-" + d else d;
  }

  /** Rows with different numeric account ids get different keys. */
  lemma RowKeysSeparateIds(r1: Value, r2: Value, i1: nat, i2: nat)
    requires Get(r1, "account_id").Num? && Get(r2, "account_id").Num?
    requires Get(r1, "account_id") != Get(r2, "account_id")
    ensures RowKey(r1, i1) != RowKey(r2, i2)
  {
    var a, b := Get(r1, "account_id").n, Get(r2, "account_id").n;
    RowKeyMeaning(r1, i1);
    RowKeyMeaning(r2, i2);
    IntTextAllowed(a);
    IntTextAllowed(b);
    SanitizeKeepsAllowed(ToStr(Num(a)));
    SanitizeKeepsAllowed(ToStr(Num(b)));
    if RowKey(r1, i1) == RowKey(r2, i2) {
      assert ("acc_" + ToStr(Num(a)))[4..] == ToStr(Num(a));
      assert ("acc_" + ToStr(Num(b)))[4..] == ToStr(Num(b));
      ParseIntOfString(a, false);
      ParseIntOfString(b, false);
    }
  }

  // ---------------------------------------------------------------- proposal-accounts headers

  const CommonExclusions: seq<string> := ["row_index", "unnamed_col", "created_at", "id"]
  const VotedExclusions: seq<string> := CommonExclusions + ["score_model1", "prediction_model1", "in_outreach"]
  const UnvotedExclusions: seq<string> := CommonExclusions + ["score_model2", "prediction_model2"]
  const TargetEncoded := "Target_encoded"

  /**
   * `Array.from(new Set([...votedKeys, ...unvotedKeys]))`, where each list
   * is `Object.keys` of the first row of its side, or empty when the side
   * has no rows.
   */
  function AllHeaders(votedKeys: seq<string>, unvotedKeys: seq<string>): seq<string> {
    Dedup(votedKeys + unvotedKeys)
  }

  function NotIn(excluded: seq<string>): string -> bool {
    h => h !in excluded
  }

  function NotTarget(): string -> bool {
    h => h != TargetEncoded
  }

  function VotedHeaders(votedKeys: seq<string>, unvotedKeys: seq<string>): seq<string> {
    ProposalsPredictions.Filter(AllHeaders(votedKeys, unvotedKeys), NotIn(VotedExclusions))
  }

  /** `unvotedHeadersFiltered`. */
  function UnvotedFiltered(votedKeys: seq<string>, unvotedKeys: seq<string>): seq<string> {
    ProposalsPredictions.Filter(AllHeaders(votedKeys, unvotedKeys), NotIn(UnvotedExclusions))
  }

  /** The unvoted headers, with `Target_encoded` moved to the end when it is there. */
  function UnvotedHeaders(votedKeys: seq<string>, unvotedKeys: seq<string>): seq<string> {
    var filtered := UnvotedFiltered(votedKeys, unvotedKeys);
    ProposalsPredictions.Filter(filtered, NotTarget()) + (if TargetEncoded in filtered then [TargetEncoded] else [])
  }

  /** The position of a header's first appearance among the keys, the order both header rows keep. */
  function Appearance(keys: seq<string>): string -> int {
    h => if h in keys then FirstAt(keys, h) else -1
  }

  /** A sequence ordered strictly by first appearance holds each header once. */
  lemma RankedDistinct(xs: seq<string>, rank: string -> int)
    requires forall i, j :: 0 <= i < j < |xs| ==> rank(xs[i]) < rank(xs[j])
    ensures Distinct(xs)
  {
  }

  /** The first-appearance order of the union, as a rank every filter of it keeps. */
  lemma AllHeadersRanked(votedKeys: seq<string>, unvotedKeys: seq<string>)
    ensures var all := AllHeaders(votedKeys, unvotedKeys);
      forall i, j :: 0 <= i < j < |all| ==> Appearance(votedKeys + unvotedKeys)(all[i]) < Appearance(votedKeys + unvotedKeys)(all[j])
  {
    var keys := votedKeys + unvotedKeys;
    var all := Dedup(keys);
    DedupMeaning(keys);
    forall i, j | 0 <= i < j < |all|
      ensures Appearance(keys)(all[i]) < Appearance(keys)(all[j])
    {
      assert all[i] in keys && all[j] in keys;
    }
  }

  lemma VotedHeadersMembers(votedKeys: seq<string>, unvotedKeys: seq<string>)
    ensures forall h :: h in VotedHeaders(votedKeys, unvotedKeys) <==> (h in votedKeys || h in unvotedKeys) && h !in VotedExclusions
  {
    DedupMeaning(votedKeys + unvotedKeys);
    ProposalsPredictions.FilterMembers(AllHeaders(votedKeys, unvotedKeys), NotIn(VotedExclusions));
  }

  /** The voted header row keeps the first-appearance order of the union. */
  lemma VotedHeadersRanked(votedKeys: seq<string>, unvotedKeys: seq<string>)
    ensures var hs := VotedHeaders(votedKeys, unvotedKeys);
      forall i, j :: 0 <= i < j < |hs| ==> Appearance(votedKeys + unvotedKeys)(hs[i]) < Appearance(votedKeys + unvotedKeys)(hs[j])
  {
    AllHeadersRanked(votedKeys, unvotedKeys);
    ProposalsPredictions.FilterRanked(AllHeaders(votedKeys, unvotedKeys), NotIn(VotedExclusions), Appearance(votedKeys + unvotedKeys));
  }

  /**
   * The voted header row: every key of either first row that the voted
   * side does not exclude, each once, in order of first appearance.
   */
  lemma VotedHeadersMeaning(votedKeys: seq<string>, unvotedKeys: seq<string>)
    ensures var hs := VotedHeaders(votedKeys, unvotedKeys);
      && (forall h :: h in hs <==> (h in votedKeys || h in unvotedKeys) && h !in VotedExclusions)
      && Distinct(hs)
      && forall i, j :: 0 <= i < j < |hs| ==>
           FirstAt(votedKeys + unvotedKeys, hs[i]) < FirstAt(votedKeys + unvotedKeys, hs[j])
  {
    var keys := votedKeys + unvotedKeys;
    var hs := VotedHeaders(votedKeys, unvotedKeys);
    VotedHeadersMembers(votedKeys, unvotedKeys);
    VotedHeadersRanked(votedKeys, unvotedKeys);
    RankedDistinct(hs, Appearance(keys));
    forall i, j | 0 <= i < j < |hs|
      ensures FirstAt(keys, hs[i]) < FirstAt(keys, hs[j])
    {
      assert hs[i] in hs && hs[j] in hs;
    }
  }

  /** The headers the unvoted side keeps, and their order. */
  lemma UnvotedFilteredMeaning(votedKeys: seq<string>, unvotedKeys: seq<string>)
    ensures var f := UnvotedFiltered(votedKeys, unvotedKeys);
      && (forall h :: h in f <==> (h in votedKeys || h in unvotedKeys) && h !in UnvotedExclusions)
      && forall i, j :: 0 <= i < j < |f| ==> Appearance(votedKeys + unvotedKeys)(f[i]) < Appearance(votedKeys + unvotedKeys)(f[j])
  {
    var keys := votedKeys + unvotedKeys;
    var all := AllHeaders(votedKeys, unvotedKeys);
    DedupMeaning(keys);
    ProposalsPredictions.FilterMembers(all, NotIn(UnvotedExclusions));
    AllHeadersRanked(votedKeys, unvotedKeys);
    ProposalsPredictions.FilterRanked(all, NotIn(UnvotedExclusions), Appearance(keys));
  }

  /** Without `Target_encoded`, the kept headers are still in order. */
  lemma UnvotedRestMeaning(votedKeys: seq<string>, unvotedKeys: seq<string>)
    ensures var rest := ProposalsPredictions.Filter(UnvotedFiltered(votedKeys, unvotedKeys), NotTarget());
      && (forall h :: h in rest <==> h in UnvotedFiltered(votedKeys, unvotedKeys) && h != TargetEncoded)
      && forall i, j :: 0 <= i < j < |rest| ==> Appearance(votedKeys + unvotedKeys)(rest[i]) < Appearance(votedKeys + unvotedKeys)(rest[j])
  {
    var f := UnvotedFiltered(votedKeys, unvotedKeys);
    UnvotedFilteredMeaning(votedKeys, unvotedKeys);
    ProposalsPredictions.FilterMembers(f, NotTarget());
    ProposalsPredictions.FilterRanked(f, NotTarget(), Appearance(votedKeys + unvotedKeys));
  }

  lemma TargetNotExcluded()
    ensures TargetEncoded !in UnvotedExclusions
  {
    assert TargetEncoded[0] == 'T';
  }

  /**
   * The unvoted header row: every key of either first row that the
   * unvoted side does not exclude, each once; `Target_encoded` last
   * exactly when it is among them, the others in order of first
   * appearance.
   */
  lemma UnvotedHeadersMeaning(votedKeys: seq<string>, unvotedKeys: seq<string>)
    ensures var hs := UnvotedHeaders(votedKeys, unvotedKeys);
      var present := TargetEncoded in votedKeys || TargetEncoded in unvotedKeys;
      && (forall h :: h in hs <==> (h in votedKeys || h in unvotedKeys) && h !in UnvotedExclusions)
      && Distinct(hs)
      && (present ==> |hs| > 0 && hs[|hs| - 1] == TargetEncoded)
      && (!present ==> TargetEncoded !in hs)
      && forall i, j :: 0 <= i < j < |hs| && hs[j] != TargetEncoded ==>
           FirstAt(votedKeys + unvotedKeys, hs[i]) < FirstAt(votedKeys + unvotedKeys, hs[j])
  {
    var keys := votedKeys + unvotedKeys;
    var f := UnvotedFiltered(votedKeys, unvotedKeys);
    var rest := ProposalsPredictions.Filter(f, NotTarget());
    var hs := UnvotedHeaders(votedKeys, unvotedKeys);
    UnvotedFilteredMeaning(votedKeys, unvotedKeys);
    UnvotedRestMeaning(votedKeys, unvotedKeys);
    TargetNotExcluded();
    RankedDistinct(rest, Appearance(keys));
    assert hs == rest + (if TargetEncoded in f then [TargetEncoded] else []);
    forall i, j | 0 <= i < j < |hs| && hs[j] != TargetEncoded
      ensures FirstAt(keys, hs[i]) < FirstAt(keys, hs[j])
    {
      assert j < |rest| && hs[i] == rest[i] && hs[j] == rest[j];
      assert rest[i] in rest && rest[j] in rest;
    }
  }
}
