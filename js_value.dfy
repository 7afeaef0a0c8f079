/**
 * The JavaScript values server.js and public/script.js handle, and the
 * few operators of the language their decisions rest on (ECMAScript
 * 2023): ToBoolean, ToString, `||`, `??`, property access, `parseInt`,
 * `String.prototype.trim` and `Array.from(new Set(xs))`.
 *
 * Numbers are integers: the values these files decide on are keys,
 * counters and page numbers.  The NaN that `parseInt` returns is the
 * `None` of its result.
 */
module JsValue {
  import opened Wrappers
  import PyText
  import PyNum

  datatype Value =
    | Undefined
    | Null
    | Bool(b: bool)
    | Num(n: int)
    | Str(s: string)
    | Arr(elems: seq<Value>)
    | Obj(fields: map<string, Value>)

  /** ToBoolean: `undefined`, `null`, `false`, `0` and `''` are falsy. */
  predicate Truthy(v: Value) {
    match v
    case Undefined => false
    case Null => false
    case Bool(b) => b
    case Num(n) => n != 0
    case Str(s) => s != ""
    case _ => true
  }

  predicate Nullish(v: Value) {
    v.Undefined? || v.Null?
  }

  /** `a || b`. */
  function Or(a: Value, b: Value): Value {
    if Truthy(a) then a else b
  }

  /** `a ?? b`. */
  function Coalesce(a: Value, b: Value): Value {
    if Nullish(a) then b else a
  }

  /** `v.key` (or `v[key]`) on a value that is not `null` or `undefined`: only objects have the keys read here. */
  function Get(v: Value, key: string): Value {
    if v.Obj? && key in v.fields then v.fields[key] else Undefined
  }

  /** ToString, as `String(v)` and template literals apply it. */
  function ToStr(v: Value): string
    decreases v
  {
    match v
    case Undefined => "undefined"
    case Null => "null"
    case Bool(b) => if b then "true" else "false"
    case Num(n) => PyNum.IntToString(n)
    case Str(s) => s
    case Arr(e) =>
      PyText.Join(seq(|e|, i requires 0 <= i < |e| => if Nullish(e[i]) then "" else ToStr(e[i])), ",")
    case Obj(_) => "[object Object]"
  }

  /** ECMAScript's WhiteSpace and LineTerminator code points, which `trim` and `parseInt` skip. */
  predicate IsJsSpace(c: char) {
    || ('\t' <= c <= '\r') || c == ' ' || c == '\U{A0}' || c == '\U{1680}'
    || ('\U{2000}' <= c <= '\U{200A}') || c == '\U{2028}' || c == '\U{2029}' || c == '\U{202F}'
    || c == '\U{205F}' || c == '\U{3000}' || c == '\U{FEFF}'
  }

  function TrimStart(s: string): (r: string)
    ensures |r| <= |s| && r == s[|s| - |r|..]
    ensures forall i :: 0 <= i < |s| - |r| ==> IsJsSpace(s[i])
    ensures r != [] ==> !IsJsSpace(r[0])
    decreases |s|
  {
    if s != [] && IsJsSpace(s[0]) then TrimStart(s[1..]) else s
  }

  function TrimEnd(s: string): (r: string)
    ensures |r| <= |s| && r == s[..|r|]
    ensures forall i :: |r| <= i < |s| ==> IsJsSpace(s[i])
    ensures r != [] ==> !IsJsSpace(r[|r| - 1])
    decreases |s|
  {
    if s != [] && IsJsSpace(s[|s| - 1]) then TrimEnd(s[..|s| - 1]) else s
  }

  /** `s.trim()`: empty exactly when `s` is all whitespace. */
  function Trim(s: string): (r: string)
    ensures r == [] <==> forall i :: 0 <= i < |s| ==> IsJsSpace(s[i])
  {
    var t := TrimStart(s);
    assert t == [] ==> forall i :: 0 <= i < |s| ==> IsJsSpace(s[i]);
    assert t != [] ==> !IsJsSpace(s[|s| - |t|]);
    TrimEnd(t)
  }

  /** The value of a digit in bases up to 36. */
  function DigitOf(c: char): Option<nat> {
    if '0' <= c <= '9' then Some(c as int - '0' as int)
    else if 'a' <= c <= 'z' then Some(c as int - 'a' as int + 10)
    else if 'A' <= c <= 'Z' then Some(c as int - 'A' as int + 10)
    else None
  }

  predicate IsDigitIn(c: char, radix: nat) {
    DigitOf(c).Some? && DigitOf(c).value < radix
  }

  /** The length of the longest prefix of `s` made of digits of base `radix`. */
  function DigitRun(s: string, radix: nat): (n: nat)
    ensures n <= |s|
    ensures forall i :: 0 <= i < n ==> IsDigitIn(s[i], radix)
    ensures n < |s| ==> !IsDigitIn(s[n], radix)
    decreases |s|
  {
    if s != [] && IsDigitIn(s[0], radix) then 1 + DigitRun(s[1..], radix) else 0
  }

  function RadixValue(s: string, radix: nat): nat
    requires forall i :: 0 <= i < |s| ==> IsDigitIn(s[i], radix)
    decreases |s|
  {
    if s == [] then 0
    else
      assert IsDigitIn(s[|s| - 1], radix);
      RadixValue(s[..|s| - 1], radix) * radix + DigitOf(s[|s| - 1]).value
  }

  predicate HexPrefixed(s: string) {
    |s| >= 2 && s[0] == '0' && (s[1] == 'x' || s[1] == 'X')
  }

  /**
   * `parseInt(s)` when `prefixed` (no radix: a `0x` prefix switches to
   * base 16), `parseInt(s, 10)` otherwise: leading whitespace and one
   * sign are skipped, then the longest run of digits is read and the rest
   * ignored; no digit at all is NaN (`None`).
   */
  function ParseInt(s: string, prefixed: bool): (r: Option<int>)
  {
    var (neg, body) := PyNum.SplitSign(TrimStart(s));
    var (radix, digits) := if prefixed && HexPrefixed(body) then (16, body[2..]) else (10, body);
    var n := DigitRun(digits, radix);
    if n == 0 then None else Some(PyNum.Signed(neg, RadixValue(digits[..n], radix)))
  }

  /** `parseInt` of an absent query parameter: `parseInt(undefined)` reads the text "undefined". */
  function ParseParam(v: Option<string>, prefixed: bool): (r: Option<int>)
    ensures v.None? ==> r.None?
  {
    match v
    case None =>
      assert DigitRun("undefined", 10) == 0;
      None
    case Some(s) => ParseInt(s, prefixed)
  }

  lemma {:induction false} DecimalRadix(s: string)
    requires PyText.AllDigits(s)
    ensures forall i :: 0 <= i < |s| ==> IsDigitIn(s[i], 10)
    ensures RadixValue(s, 10) == PyNum.DecValue(s)
    decreases |s|
  {
    if s != [] {
      DecimalRadix(s[..|s| - 1]);
    }
  }

  /** `parseInt` reads back what `String` makes of an integer, in either form. */
  lemma ParseIntOfString(n: int, prefixed: bool)
    ensures ParseInt(ToStr(Num(n)), prefixed) == Some(n)
  {
    var d := PyNum.NatToString(if n < 0 then -n else n);
    assert PyText.IsDigit(d[0]);
    if n < 0 {
      var s := "-" + d;
      assert ToStr(Num(n)) == s;
      assert s[1..] == d;
      ParseSignedDigits(s, true, d, prefixed);
    } else {
      assert ToStr(Num(n)) == d;
      ParseSignedDigits(d, false, d, prefixed);
    }
  }

  lemma ParseSignedDigits(s: string, neg: bool, d: string, prefixed: bool)
    requires d != [] && PyText.AllDigits(d)
    requires s != [] && !IsJsSpace(s[0]) && PyNum.SplitSign(s) == (neg, d)
    ensures ParseInt(s, prefixed) == Some(PyNum.Signed(neg, PyNum.DecValue(d)))
  {
    assert TrimStart(s) == s;
    ParseDigits(d, prefixed);
  }

  /** A run of decimal digits, with no sign, is read whole and as a decimal number. */
  lemma ParseDigits(d: string, prefixed: bool)
    requires d != [] && PyText.AllDigits(d)
    ensures var (radix, digits) := if prefixed && HexPrefixed(d) then (16, d[2..]) else (10, d);
      radix == 10 && digits == d && DigitRun(d, 10) == |d| && RadixValue(d[..|d|], 10) == PyNum.DecValue(d)
  {
    DecimalRadix(d);
    DigitRunStops(d, []);
    assert d + [] == d && d[..|d|] == d;
    assert !HexPrefixed(d) by {
      if |d| >= 2 {
        assert PyText.IsDigit(d[1]);
      }
    }
  }

  /** `parseInt(s, 10)` stops at the first character that is not a decimal digit. */
  lemma ParseIntStops(n: nat, rest: string)
    requires rest == [] || !('0' <= rest[0] <= '9')
    ensures ParseInt(ToStr(Num(n)) + rest, false) == Some(n)
  {
    var d := PyNum.NatToString(n);
    assert ToStr(Num(n)) == d;
    var s := d + rest;
    assert !IsJsSpace(s[0]) && s[0] != '-' && s[0] != '+';
    DecimalRadix(d);
    DigitRunStops(d, rest);
    assert s[..|d|] == d;
  }

  lemma {:induction false} DigitRunStops(d: string, rest: string)
    requires forall i :: 0 <= i < |d| ==> IsDigitIn(d[i], 10)
    requires rest == [] || !('0' <= rest[0] <= '9')
    ensures DigitRun(d + rest, 10) == |d|
    decreases |d|
  {
    if d != [] {
      assert (d + rest)[1..] == d[1..] + rest;
      DigitRunStops(d[1..], rest);
    } else {
      assert d + rest == rest;
    }
  }

  predicate Distinct<T(==)>(xs: seq<T>) {
    forall i, j :: 0 <= i < j < |xs| ==> xs[i] != xs[j]
  }

  /** The position of the first occurrence of `x` in `xs`. */
  function FirstAt<T(==)>(xs: seq<T>, x: T): (k: nat)
    requires x in xs
    ensures k < |xs| && xs[k] == x && x !in xs[..k]
    decreases |xs|
  {
    if xs[0] == x then 0
    else
      var k := 1 + FirstAt(xs[1..], x);
      assert xs[..k] == [xs[0]] + xs[1..][..k - 1];
      k
  }

  lemma FirstAtUnique<T>(xs: seq<T>, x: T, k: nat)
    requires k < |xs| && xs[k] == x && x !in xs[..k]
    ensures FirstAt(xs, x) == k
  {
  }

  /** `Array.from(new Set(xs))`: each element once, at its first occurrence. */
  function Dedup<T(==)>(xs: seq<T>): seq<T>
    decreases |xs|
  {
    if xs == [] then []
    else
      var last := xs[|xs| - 1];
      var d := Dedup(xs[..|xs| - 1]);
      if last in xs[..|xs| - 1] then d else d + [last]
  }

  /**
   * `Dedup` keeps exactly the elements of `xs`, each once, ordered by
   * where they first occur in `xs`.
   */
  lemma {:induction false} DedupMeaning<T>(xs: seq<T>)
    ensures forall x :: x in Dedup(xs) <==> x in xs
    ensures Distinct(Dedup(xs))
    ensures forall i, j :: 0 <= i < j < |Dedup(xs)| ==> FirstAt(xs, Dedup(xs)[i]) < FirstAt(xs, Dedup(xs)[j])
    decreases |xs|
  {
    if xs != [] {
      var p := xs[..|xs| - 1];
      var last := xs[|xs| - 1];
      var d := Dedup(p);
      DedupMeaning(p);
      assert xs == p + [last];
      forall x | x in p
        ensures FirstAt(xs, x) == FirstAt(p, x)
      {
        var k := FirstAt(p, x);
        assert xs[..k] == p[..k];
        FirstAtUnique(xs, x, k);
      }
      if last !in p {
        assert xs[..|p|] == p;
        FirstAtUnique(xs, last, |p|);
        var r := d + [last];
        assert Dedup(xs) == r;
        forall i, j | 0 <= i < j < |r|
          ensures FirstAt(xs, r[i]) < FirstAt(xs, r[j])
        {
          assert r[i] == d[i] && d[i] in d;
          if j < |d| {
            assert r[j] == d[j];
          }
        }
      }
    }
  }

  /** Removing duplicates twice is removing them once. */
  lemma {:induction false} DedupIdempotent<T>(xs: seq<T>)
    ensures Dedup(Dedup(xs)) == Dedup(xs)
  {
    DedupMeaning(xs);
    DedupOfDistinct(Dedup(xs));
  }

  lemma {:induction false} DedupOfDistinct<T>(xs: seq<T>)
    requires Distinct(xs)
    ensures Dedup(xs) == xs
    decreases |xs|
  {
    if xs != [] {
      var p := xs[..|xs| - 1];
      assert Distinct(p);
      DedupOfDistinct(p);
      assert xs[|xs| - 1] !in p;
      assert p + [xs[|xs| - 1]] == xs;
    }
  }
}
