/**
 * The INSERT batcher of docker/optimize_sql_dumps.py.
 *
 * A dump is a sequence of lines. Each line whose stripped form is a
 * single-row ``INSERT INTO `t` VALUES (...);`` has its value group
 * collected; runs of such lines for one table are re-emitted as
 * multi-row INSERT statements of at most `batchSize` groups. Every
 * other line is copied verbatim, after the pending batch is flushed.
 *
 * The written output is a sequence of strings, one per `write` call.
 * Next to it the batcher returns what it emitted as abstract events,
 * and the proof ties those events back to the input lines.
 */
module SqlDump {
  import opened Wrappers
  import opened PyText
  import PyNum

  const InsertPrefix: string := "INSERT INTO `"
  const ValuesInfix: string := "` VALUES "

  /** The two groups captured by the INSERT pattern. */
  datatype Insert = Insert(table: string, values: string)

  /**
   * What the capture groups can hold: a non-empty table name without a
   * backtick, and a non-empty values part without a newline (`.` does
   * not match `\n`).
   */
  predicate Capturable(t: string, v: string) {
    t != [] && '`' !in t && v != [] && '\n' !in v
  }

  /** `(.+);` at the end of the text: the values part before the final `;`. */
  function MatchValues(body: string): (r: Option<string>)
    ensures r.Some? ==> r.value != [] && '\n' !in r.value
  {
    if |body| >= 2 && body[|body| - 1] == ';' && '\n' !in body[..|body| - 1] then Some(body[..|body| - 1]) else None
  }

  /** `([^`]+) inf (.+);`: the name runs up to the first backtick. */
  function MatchNamed(rest: string, inf: string): (r: Option<Insert>)
    ensures r.Some? ==> Capturable(r.value.table, r.value.values)
  {
    var i := PyNum.FirstIndex(rest, '`');
    if i == 0 || i == |rest| || !StartsWith(rest[i..], inf) then None
    else match MatchValues(rest[i + |inf|..])
      case None => None
      case Some(v) => Some(Insert(rest[..i], v))
  }

  /**
   * The pattern `pre ([^`]+) inf (.+);` anchored at both ends, where `inf`
   * starts with the backtick that closes the name.
   */
  function MatchAround(s: string, pre: string, inf: string): (r: Option<Insert>)
    ensures r.Some? ==> Capturable(r.value.table, r.value.values)
  {
    if !StartsWith(s, pre) then None else MatchNamed(s[|pre|..], inf)
  }

  /** The full match of ``^INSERT INTO `([^`]+)` VALUES (.+);$``. */
  function MatchInsert(s: string): (r: Option<Insert>)
    ensures r.Some? ==> Capturable(r.value.table, r.value.values)
  {
    MatchAround(s, InsertPrefix, ValuesInfix)
  }

  lemma MatchValuesComplete(v: string)
    requires v != [] && '\n' !in v
    ensures MatchValues(v + ";") == Some(v)
  {
    SplitAt(v, ";");
  }

  lemma FirstIndexAfter(t: string, tail: string)
    requires '`' !in t && tail != [] && tail[0] == '`'
    ensures PyNum.FirstIndex(t + tail, '`') == |t|
  {
    var rest := t + tail;
    assert rest[|t|] == '`' && rest[..|t|] == t;
  }

  lemma MatchNamedComplete(inf: string, t: string, v: string)
    requires inf != [] && inf[0] == '`' && Capturable(t, v)
    ensures MatchNamed(t + (inf + (v + ";")), inf) == Some(Insert(t, v))
  {
    var tail := inf + (v + ";");
    FirstIndexAfter(t, tail);
    SplitAt(t, tail);
    SplitAt(inf, v + ";");
    MatchValuesComplete(v);
  }

  lemma MatchAroundComplete(pre: string, inf: string, t: string, v: string)
    requires inf != [] && inf[0] == '`' && Capturable(t, v)
    ensures MatchAround(pre + (t + (inf + (v + ";"))), pre, inf) == Some(Insert(t, v))
  {
    SplitAt(pre, t + (inf + (v + ";")));
    MatchNamedComplete(inf, t, v);
  }

  lemma MatchNamedSound(rest: string, inf: string)
    requires MatchNamed(rest, inf).Some?
    ensures rest == MatchNamed(rest, inf).value.table + (inf + (MatchNamed(rest, inf).value.values + ";"))
  {
    var i := PyNum.FirstIndex(rest, '`');
    var tail := rest[i..];
    var body := rest[i + |inf|..];
    var m := MatchNamed(rest, inf).value;
    assert m.table == rest[..i] && m.values == MatchValues(body).value;
    MatchValuesSound(body);
    assert tail == inf + body by {
      Rejoin(tail, |inf|);
      assert tail[|inf|..] == body;
    }
    Rejoin(rest, i);
  }

  lemma MatchValuesSound(body: string)
    requires MatchValues(body).Some?
    ensures body == MatchValues(body).value + ";"
  {
    Rejoin(body, |body| - 1);
    assert body[|body| - 1..] == [body[|body| - 1]];
  }

  lemma Rejoin<T>(x: seq<T>, k: nat)
    requires k <= |x|
    ensures x == x[..k] + x[k..]
  {
  }

  lemma MatchAroundSound(s: string, pre: string, inf: string)
    requires MatchAround(s, pre, inf).Some?
    ensures s == pre + (MatchAround(s, pre, inf).value.table + (inf + (MatchAround(s, pre, inf).value.values + ";")))
  {
    MatchNamedSound(s[|pre|..], inf);
    assert s == pre + s[|pre|..];
  }

  /** Every statement the pattern describes is recognised, with its groups. */
  lemma MatchInsertComplete(t: string, v: string)
    requires Capturable(t, v)
    ensures MatchInsert(InsertPrefix + t + ValuesInfix + v + ";") == Some(Insert(t, v))
  {
    MatchAroundComplete(InsertPrefix, ValuesInfix, t, v);
    Reassociate(InsertPrefix, t, ValuesInfix, v, ";");
  }

  /** A recognised line is exactly the pattern around its two groups. */
  lemma MatchInsertSound(s: string)
    requires MatchInsert(s).Some?
    ensures s == InsertPrefix + MatchInsert(s).value.table + ValuesInfix + MatchInsert(s).value.values + ";"
  {
    var m := MatchInsert(s).value;
    MatchAroundSound(s, InsertPrefix, ValuesInfix);
    Reassociate(InsertPrefix, m.table, ValuesInfix, m.values, ";");
  }

  lemma Reassociate<T>(a: seq<T>, b: seq<T>, c: seq<T>, d: seq<T>, e: seq<T>)
    ensures a + b + c + d + e == a + (b + (c + (d + e)))
  {
  }

  lemma SplitAt<T>(p: seq<T>, x: seq<T>)
    ensures (p + x)[..|p|] == p && (p + x)[|p|..] == x
  {
  }

  /** One input line, as the batcher sees it. */
  datatype Item = Keep(line: string) | Row(table: string, values: string)

  function Classify(line: string): Item {
    match MatchInsert(Strip(line))
    case Some(m) => Row(m.table, m.values)
    case None => Keep(line)
  }

  function ClassifyAll(lines: seq<string>): (r: seq<Item>)
    ensures |r| == |lines|
  {
    if lines == [] then [] else ClassifyAll(lines[..|lines| - 1]) + [Classify(lines[|lines| - 1])]
  }

  /** What the batcher writes, one event per verbatim line or statement. */
  datatype Emitted = Verbatim(line: string) | Statement(table: string, groups: seq<string>)

  function Rows(t: string, vs: seq<string>): (r: seq<Item>)
    ensures |r| == |vs|
  {
    if vs == [] then [] else Rows(t, vs[..|vs| - 1]) + [Row(t, vs[|vs| - 1])]
  }

  function ExpandOne(e: Emitted): seq<Item> {
    match e
    case Verbatim(l) => [Keep(l)]
    case Statement(t, gs) => Rows(t, gs)
  }

  /** The input items an event sequence stands for. */
  function Expand(es: seq<Emitted>): seq<Item> {
    if es == [] then [] else Expand(es[..|es| - 1]) + ExpandOne(es[|es| - 1])
  }

  function NumRows(items: seq<Item>): nat {
    if items == [] then 0 else NumRows(items[..|items| - 1]) + (if items[|items| - 1].Row? then 1 else 0)
  }

  /** The header written before the groups of one statement. */
  function Header(t: string): string {
    InsertPrefix + t + "` VALUES\n"
  }

  /** Groups that are followed by more, each with its `,`. */
  function Commas(gs: seq<string>): (r: seq<string>)
    ensures |r| == |gs|
  {
    if gs == [] then [] else Commas(gs[..|gs| - 1]) + [gs[|gs| - 1] + ",\n"]
  }

  /** The strings `_write_batch` writes for one batch: `;` ends the last group. */
  function BatchLines(t: string, b: seq<string>): seq<string> {
    if b == [] then [] else [Header(t)] + Commas(b[..|b| - 1]) + [b[|b| - 1] + ";\n"]
  }

  function RenderOne(e: Emitted): seq<string> {
    match e
    case Verbatim(l) => [l]
    case Statement(t, gs) => BatchLines(t, gs)
  }

  /** The strings written for an event sequence, in order. */
  function Render(es: seq<Emitted>): seq<string> {
    if es == [] then [] else Render(es[..|es| - 1]) + RenderOne(es[|es| - 1])
  }

  lemma SnocParts(es: seq<Emitted>, e: Emitted)
    ensures Expand(es + [e]) == Expand(es) + ExpandOne(e)
    ensures Render(es + [e]) == Render(es) + RenderOne(e)
  {
    assert (es + [e])[..|es|] == es;
  }

  lemma {:induction false} NumRowsAppend(a: seq<Item>, b: seq<Item>)
    ensures NumRows(a + b) == NumRows(a) + NumRows(b)
    decreases |b|
  {
    if b == [] {
      assert a + b == a;
    } else {
      assert (a + b)[..|a + b| - 1] == a + b[..|b| - 1];
      NumRowsAppend(a, b[..|b| - 1]);
    }
  }

  lemma {:induction false} NumRowsOfRows(t: string, vs: seq<string>)
    ensures NumRows(Rows(t, vs)) == |vs|
    decreases |vs|
  {
    if vs != [] {
      assert Rows(t, vs)[..|vs| - 1] == Rows(t, vs[..|vs| - 1]);
      NumRowsOfRows(t, vs[..|vs| - 1]);
    }
  }

  lemma RowsSnoc(t: string, vs: seq<string>, v: string)
    ensures Rows(t, vs + [v]) == Rows(t, vs) + [Row(t, v)]
  {
    assert (vs + [v])[..|vs|] == vs;
  }

  lemma ClassifySnoc(lines: seq<string>, i: nat)
    requires i < |lines|
    ensures ClassifyAll(lines[..i + 1]) == ClassifyAll(lines[..i]) + [Classify(lines[i])]
  {
    assert lines[..i + 1][..i] == lines[..i];
  }

  lemma {:induction false} CommasAt(gs: seq<string>, k: nat)
    requires k < |gs|
    ensures Commas(gs)[k] == gs[k] + ",\n"
    decreases |gs|
  {
    if k < |gs| - 1 {
      CommasAt(gs[..|gs| - 1], k);
    }
  }

  /**
   * What `_write_batch` writes: nothing for an empty batch; otherwise the
   * header, then line `i + 1` is group `i` followed by `,`, except that the
   * last group is followed by `;`.
   */
  lemma BatchLinesShape(t: string, b: seq<string>)
    ensures b == [] ==> BatchLines(t, b) == []
    ensures b != [] ==> |BatchLines(t, b)| == |b| + 1 && BatchLines(t, b)[0] == Header(t)
    ensures forall i :: 0 <= i < |b| ==>
      BatchLines(t, b)[i + 1] == b[i] + (if i == |b| - 1 then ";\n" else ",\n")
  {
    if b != [] {
      var ls := BatchLines(t, b);
      forall i | 0 <= i < |b|
        ensures ls[i + 1] == b[i] + (if i == |b| - 1 then ";\n" else ",\n")
      {
        if i < |b| - 1 {
          CommasAt(b[..|b| - 1], i);
          assert ls[i + 1] == Commas(b[..|b| - 1])[i];
        }
      }
    }
  }

  lemma CommaLine(pre: seq<string>, b: seq<string>, i: nat)
    requires i < |b|
    ensures pre + Commas(b[..i]) + [b[i] + ",\n"] == pre + Commas(b[..i + 1])
  {
    assert b[..i + 1][..i] == b[..i];
  }

  lemma LastLine(out: seq<string>, t: string, b: seq<string>)
    requires b != []
    ensures out + [Header(t)] + Commas(b[..|b| - 1]) + [b[|b| - 1] + ";\n"] == out + BatchLines(t, b)
  {
  }

  /** `_write_batch` appending to the output written so far. */
  method WriteBatch(out: seq<string>, t: string, b: seq<string>) returns (o: seq<string>)
    ensures o == out + BatchLines(t, b)
  {
    o := out;
    if b == [] {
      return;
    }
    ghost var pre := out + [Header(t)];
    o := o + [Header(t)];
    var i := 0;
    while i < |b|
      invariant 0 <= i <= |b|
      invariant i < |b| ==> o == pre + Commas(b[..i])
      invariant i == |b| ==> o == out + BatchLines(t, b)
    {
      if i == |b| - 1 {
        LastLine(out, t, b);
        o := o + [b[i] + ";\n"];
      } else {
        CommaLine(pre, b, i);
        o := o + [b[i] + ",\n"];
      }
      i := i + 1;
    }
  }

  /** Items still waiting in the batch of the current table. */
  function Pending(current: Option<string>, batch: seq<string>): seq<Item> {
    if current.None? then [] else Rows(current.value, batch)
  }

  predicate SizedStatement(e: Emitted, batchSize: nat) {
    e.Statement? ==> 1 <= |e.groups| && (|e.groups| <= batchSize || |e.groups| == 1)
  }

  /** A statement below the batch size that is followed by more of the same table. */
  predicate NeedlessSplit(es: seq<Emitted>, k: nat, batchSize: nat)
    requires k + 1 < |es|
  {
    es[k].Statement? && |es[k].groups| < batchSize && es[k + 1].Statement? && es[k + 1].table == es[k].table
  }

  predicate ShortLast(es: seq<Emitted>, batchSize: nat) {
    es != [] && es[|es| - 1].Statement? && |es[|es| - 1].groups| < batchSize
  }

  /** The batcher's loop state: its locals and what it has written. */
  datatype Batcher = Batcher(out: seq<string>, emitted: seq<Emitted>, converted: nat,
                             current: Option<string>, batch: seq<string>)

  /** Every statement holds at least one group and at most `batchSize` of them. */
  predicate AllSized(es: seq<Emitted>, batchSize: nat) {
    forall k :: 0 <= k < |es| ==> SizedStatement(es[k], batchSize)
  }

  /** No statement is cut short while the next one continues its table. */
  predicate NoNeedlessSplit(es: seq<Emitted>, batchSize: nat) {
    forall k :: 0 <= k < |es| - 1 ==> !NeedlessSplit(es, k, batchSize)
  }

  /** The written text, the events and the pending batch together stand for `items`. */
  predicate Accounted(b: Batcher, items: seq<Item>) {
    && b.out == Render(b.emitted)
    && (b.batch != [] ==> b.current.Some?)
    && Expand(b.emitted) + Pending(b.current, b.batch) == items
    && b.converted == NumRows(Expand(b.emitted))
  }

  /** What holds after each line, given the items read so far. */
  predicate Inv(b: Batcher, items: seq<Item>, batchSize: nat) {
    && Accounted(b, items)
    && (b.batch == [] || |b.batch| < batchSize)
    && AllSized(b.emitted, batchSize)
    && NoNeedlessSplit(b.emitted, batchSize)
    && (ShortLast(b.emitted, batchSize) ==>
          b.batch != [] && b.current.value != b.emitted[|b.emitted| - 1].table)
  }

  /** A verbatim line keeps both shape properties and is never a short statement. */
  lemma AppendVerbatim(es: seq<Emitted>, line: string, batchSize: nat)
    requires AllSized(es, batchSize) && NoNeedlessSplit(es, batchSize)
    ensures AllSized(es + [Verbatim(line)], batchSize)
    ensures NoNeedlessSplit(es + [Verbatim(line)], batchSize)
    ensures !ShortLast(es + [Verbatim(line)], batchSize)
  {
    var es' := es + [Verbatim(line)];
    forall k | 0 <= k < |es'|
      ensures SizedStatement(es'[k], batchSize)
    {
      if k < |es| {
        assert es'[k] == es[k];
      }
    }
    forall k | 0 <= k < |es'| - 1
      ensures !NeedlessSplit(es', k, batchSize)
    {
      if k < |es| - 1 {
        assert !NeedlessSplit(es, k, batchSize);
      }
    }
  }

  /** A flushed statement keeps both shape properties when it does not continue a short one. */
  lemma AppendStatement(es: seq<Emitted>, t: string, batch: seq<string>, batchSize: nat)
    requires AllSized(es, batchSize) && NoNeedlessSplit(es, batchSize)
    requires SizedStatement(Statement(t, batch), batchSize)
    requires ShortLast(es, batchSize) ==> t != es[|es| - 1].table
    ensures AllSized(es + [Statement(t, batch)], batchSize)
    ensures NoNeedlessSplit(es + [Statement(t, batch)], batchSize)
  {
    var es' := es + [Statement(t, batch)];
    forall k | 0 <= k < |es'|
      ensures SizedStatement(es'[k], batchSize)
    {
      if k < |es| {
        assert es'[k] == es[k];
      }
    }
    forall k | 0 <= k < |es'| - 1
      ensures !NeedlessSplit(es', k, batchSize)
    {
      if k < |es| - 1 {
        assert !NeedlessSplit(es, k, batchSize);
      }
    }
  }

  /**
   * `optimize_sql_dump` over the input lines: returns the written strings,
   * the emitted events and `inserts_converted`.
   */
  method OptimizeDump(lines: seq<string>, batchSize: nat) returns (out: seq<string>, emitted: seq<Emitted>, converted: nat)
    ensures out == Render(emitted)
    ensures Expand(emitted) == ClassifyAll(lines)
    ensures AllSized(emitted, batchSize)
    ensures NoNeedlessSplit(emitted, batchSize)
    ensures converted == NumRows(ClassifyAll(lines))
  {
    var st := Batcher([], [], 0, None, []);
    var i := 0;
    while i < |lines|
      invariant 0 <= i <= |lines|
      invariant Inv(st, ClassifyAll(lines[..i]), batchSize)
    {
      ClassifySnoc(lines, i);
      var m := MatchInsert(Strip(lines[i]));
      if m.Some? {
        st := InsertLine(st, ClassifyAll(lines[..i]), m.value, batchSize);
      } else {
        st := OtherLine(st, ClassifyAll(lines[..i]), lines[i], batchSize);
      }
      i := i + 1;
    }
    assert lines[..i] == lines;
    if st.batch != [] {
      st := Flush(st, ClassifyAll(lines), batchSize);
    }
    out, emitted, converted := st.out, st.emitted, st.converted;
  }

  /** A matched INSERT: flush on a change of table, append, flush when full. */
  method InsertLine(st: Batcher, items: seq<Item>, m: Insert, batchSize: nat) returns (st': Batcher)
    requires Inv(st, items, batchSize)
    ensures Inv(st', items + [Row(m.table, m.values)], batchSize)
  {
    var s := st;
    if s.current != Some(m.table) {
      s := SwitchTable(s, items, m.table, batchSize);
    }
    st' := AddRow(s, items, m, batchSize);
  }

  /** A new table name: the previous table's batch is flushed first. */
  method SwitchTable(st: Batcher, items: seq<Item>, t: string, batchSize: nat) returns (s: Batcher)
    requires Inv(st, items, batchSize) && st.current != Some(t)
    ensures Accounted(s, items) && s.current == Some(t) && s.batch == []
    ensures AllSized(s.emitted, batchSize) && NoNeedlessSplit(s.emitted, batchSize)
    ensures ShortLast(s.emitted, batchSize) ==> t != s.emitted[|s.emitted| - 1].table
  {
    s := st;
    if s.batch != [] {
      s := Flush(s, items, batchSize);
    }
    s := s.(current := Some(t));
  }

  /** The values join the batch of the current table, which is flushed once full. */
  method AddRow(s: Batcher, items: seq<Item>, m: Insert, batchSize: nat) returns (st': Batcher)
    requires Accounted(s, items) && s.current == Some(m.table)
    requires s.batch == [] || |s.batch| < batchSize
    requires AllSized(s.emitted, batchSize) && NoNeedlessSplit(s.emitted, batchSize)
    requires ShortLast(s.emitted, batchSize) ==> m.table != s.emitted[|s.emitted| - 1].table
    ensures Inv(st', items + [Row(m.table, m.values)], batchSize)
  {
    RowsSnoc(m.table, s.batch, m.values);
    var s1 := s.(batch := s.batch + [m.values]);
    assert Pending(s1.current, s1.batch) == Pending(s.current, s.batch) + [Row(m.table, m.values)];
    assert Accounted(s1, items + [Row(m.table, m.values)]);
    if |s1.batch| >= batchSize {
      st' := Flush(s1, items + [Row(m.table, m.values)], batchSize);
    } else {
      st' := s1;
    }
  }

  /** Any other line: flush the pending batch, forget the table, copy the line. */
  method OtherLine(st: Batcher, items: seq<Item>, line: string, batchSize: nat) returns (st': Batcher)
    requires Inv(st, items, batchSize)
    ensures Inv(st', items + [Keep(line)], batchSize)
  {
    var s := st;
    if s.batch != [] {
      s := Flush(s, items, batchSize);
      s := s.(current := None);
    }
    AppendVerbatim(s.emitted, line, batchSize);
    VerbatimAccounts(s, items, line);
    st' := Batcher(s.out + [line], s.emitted + [Verbatim(line)], s.converted, s.current, []);
  }

  /**
   * The flush the source repeats at each of its three sites: write the
   * pending batch as one statement, count it, and empty the batch.
   */
  method Flush(s: Batcher, items: seq<Item>, batchSize: nat) returns (s': Batcher)
    requires Accounted(s, items) && s.batch != [] && (|s.batch| <= batchSize || |s.batch| == 1)
    requires AllSized(s.emitted, batchSize) && NoNeedlessSplit(s.emitted, batchSize)
    requires ShortLast(s.emitted, batchSize) ==> s.current.value != s.emitted[|s.emitted| - 1].table
    ensures s'.emitted == s.emitted + [Statement(s.current.value, s.batch)]
    ensures s'.converted == s.converted + |s.batch|
    ensures s'.current == s.current && s'.batch == []
    ensures Accounted(s', items)
    ensures AllSized(s'.emitted, batchSize) && NoNeedlessSplit(s'.emitted, batchSize)
  {
    var t := s.current.value;
    FlushAccounts(s, items);
    AppendStatement(s.emitted, t, s.batch, batchSize);
    var o := WriteBatch(s.out, t, s.batch);
    s' := Batcher(o, s.emitted + [Statement(t, s.batch)], s.converted + |s.batch|, s.current, []);
  }

  /** Copying a line, with nothing pending, keeps the accounting. */
  lemma VerbatimAccounts(s: Batcher, items: seq<Item>, line: string)
    requires Accounted(s, items) && s.batch == []
    ensures Accounted(Batcher(s.out + [line], s.emitted + [Verbatim(line)], s.converted, s.current, []), items + [Keep(line)])
  {
    assert Pending(s.current, []) == [];
    assert Expand(s.emitted) == items;
    SnocParts(s.emitted, Verbatim(line));
    NumRowsAppend(Expand(s.emitted), [Keep(line)]);
  }

  /** Moving the pending rows into a statement keeps the accounting. */
  lemma FlushAccounts(s: Batcher, items: seq<Item>)
    requires Accounted(s, items) && s.batch != []
    ensures Accounted(Batcher(s.out + BatchLines(s.current.value, s.batch),
                              s.emitted + [Statement(s.current.value, s.batch)],
                              s.converted + |s.batch|, s.current, []), items)
  {
    var t := s.current.value;
    SnocParts(s.emitted, Statement(t, s.batch));
    NumRowsAppend(Expand(s.emitted), Rows(t, s.batch));
    NumRowsOfRows(t, s.batch);
  }
}
