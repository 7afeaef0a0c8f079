/**
 * Python's numeric conversions as the import scripts use them:
 * `float(s)`, `int(s)` and `int(float(s))`.
 *
 * A float is kept as an exact decimal `mant * 10^exp`; binary rounding
 * and the overflow of huge magnitudes to infinity are not modelled.
 * `int()` of a NaN raises ValueError and of an infinity OverflowError;
 * the two are kept apart because the scripts catch only the first.
 */
module PyNum {
  import opened Wrappers
  import opened PyText

  datatype Num = Finite(mant: int, exp: int) | Inf(neg: bool) | NaN

  /** Result of Python's `int(x)`: a value or the exception it raises. */
  datatype IntResult = IntOk(value: int) | ValueErr | OverflowErr

  function DigitValue(c: char): nat
    requires IsDigit(c)
  {
    c as int - '0' as int
  }

  /** The value of a string of decimal digits. */
  function DecValue(s: string): nat
    requires AllDigits(s)
    decreases |s|
  {
    if s == [] then 0 else DecValue(s[..|s| - 1]) * 10 + DigitValue(s[|s| - 1])
  }

  function Pow10(k: nat): (r: nat)
    ensures r >= 1
  {
    if k == 0 then 1 else 10 * Pow10(k - 1)
  }

  /** An optional leading `+` or `-`: (negative?, rest). */
  function SplitSign(s: string): (r: (bool, string))
    ensures r.1 == s || (s != [] && (s[0] == '-' || s[0] == '+') && r.1 == s[1..])
    ensures r.0 <==> s != [] && s[0] == '-'
  {
    if s != [] && (s[0] == '-' || s[0] == '+') then (s[0] == '-', s[1..]) else (false, s)
  }

  /** Index of the first `c` in `s`, or `|s|` when there is none. */
  function FirstIndex(s: string, c: char): (r: nat)
    ensures r <= |s|
    ensures r < |s| ==> s[r] == c
    ensures forall i :: 0 <= i < r ==> s[i] != c
    decreases |s|
  {
    if s == [] then 0 else if s[0] == c then 0 else 1 + FirstIndex(s[1..], c)
  }

  function Signed(neg: bool, v: nat): int {
    if neg then -(v as int) else v
  }

  /** `[sign] digits`, with no digit grouping (JavaScript's `Number` reads this form). */
  function ParseSignedDigits(t: string): (r: Option<int>)
    ensures r.Some? ==> t != []
  {
    var (neg, d) := SplitSign(t);
    if d != [] && AllDigits(d) then Some(Signed(neg, DecValue(d))) else None
  }

  /** Decimal digits and underscores only. */
  predicate DigitsOrUnderscores(s: string) {
    forall i :: 0 <= i < |s| ==> IsDigit(s[i]) || s[i] == '_'
  }

  /**
   * PEP 515 digit grouping, which `int()` and `float()` accept: decimal
   * digits in which every `_` stands between two digits.
   */
  predicate Grouped(s: string) {
    && DigitsOrUnderscores(s)
    && (forall i :: 0 <= i < |s| && s[i] == '_' ==> 0 < i < |s| - 1 && IsDigit(s[i - 1]) && IsDigit(s[i + 1]))
  }

  /** The digits of a grouped run, with its underscores dropped. */
  function DropUnderscores(s: string): (r: string)
    requires DigitsOrUnderscores(s)
    ensures AllDigits(r) && |r| <= |s|
    ensures AllDigits(s) ==> r == s
    ensures s != [] && IsDigit(s[0]) ==> r != [] && r[0] == s[0]
    ensures forall c :: c in r <==> c in s && c != '_'
    decreases |s|
  {
    if s == [] then []
    else
      var rest := DropUnderscores(s[1..]);
      assert forall c :: c in s <==> c == s[0] || c in s[1..];
      if s[0] == '_' then rest else [s[0]] + rest
  }

  lemma DigitsAreGrouped(s: string)
    requires AllDigits(s)
    ensures Grouped(s) && DropUnderscores(s) == s
  {
  }

  /** A grouped run `[sign] digits`, as in an exponent or a whole `int()` text. */
  function ParseGroupedSigned(t: string): (r: Option<int>)
    ensures r.Some? ==> t != []
  {
    var (neg, d) := SplitSign(t);
    if d != [] && Grouped(d) then Some(Signed(neg, DecValue(DropUnderscores(d)))) else None
  }

  /**
   * `digits [. digits]` with at least one digit, each run grouped: the
   * digits as one integer and the number of them after the point.
   */
  function ParseMantissa(m: string): Option<(nat, nat)> {
    var di := FirstIndex(m, '.');
    var ipart := m[..di];
    var fpart := if di < |m| then m[di + 1..] else [];
    if !Grouped(ipart) || !Grouped(fpart) || (ipart == [] && fpart == []) then None
    else
      var id := DropUnderscores(ipart);
      var fd := DropUnderscores(fpart);
      Some((DecValue(id + fd), |fd|))
  }

  /**
   * The unsigned part of a float literal, already lower-cased:
   * `digits [. digits] [e [sign] digits]` with at least one mantissa digit.
   * The result is (mantissa digits as an integer, decimal exponent).
   */
  function ParseUnsignedDecimal(b: string): Option<(nat, int)> {
    var ei := FirstIndex(b, 'e');
    match ParseMantissa(b[..ei])
    case None => None
    case Some(mf) =>
      match (if ei == |b| then Some(0) else ParseGroupedSigned(b[ei + 1..]))
      case None => None
      case Some(x) => Some((mf.0, x - mf.1))
  }

  /** Python's `float(s)`; `None` stands for the ValueError it raises. */
  function ParseFloat(s: string): (r: Option<Num>)
  {
    var (neg, body) := SplitSign(Strip(s));
    var lb := Lower(body);
    if lb == "inf" || lb == "infinity" then Some(Inf(neg))
    else if lb == "nan" then Some(NaN)
    else
      match ParseUnsignedDecimal(lb)
      case None => None
      case Some(p) => Some(Finite(Signed(neg, p.0), p.1))
  }

  /** Integer division rounding toward zero, as C and Python's `int()` truncate. */
  function TruncDiv(m: int, d: nat): (r: int)
    requires d >= 1
    ensures m >= 0 ==> 0 <= r && r * d <= m < r * d + d
    ensures m < 0 ==> r <= 0 && -m - d < -r * d <= -m
  {
    var a: nat := if m >= 0 then m else -m;
    DivBounds(a, d);
    if m >= 0 then a / d else -(a / d)
  }

  lemma DivBounds(a: nat, d: nat)
    requires d >= 1
    ensures 0 <= a / d && (a / d) * d <= a < (a / d) * d + d
  {
    assert a == d * (a / d) + a % d;
  }

  /** Python's `int(x)` for a float `x`: truncation toward zero. */
  function IntOf(n: Num): (r: IntResult)
    ensures r.ValueErr? <==> n.NaN?
    ensures r.OverflowErr? <==> n.Inf?
    ensures n.Finite? && n.exp >= 0 ==> r.value == n.mant * Pow10(n.exp)
    ensures n.Finite? && n.exp < 0 ==> r.value == TruncDiv(n.mant, Pow10(-n.exp))
  {
    match n
    case NaN => ValueErr
    case Inf(_) => OverflowErr
    case Finite(m, e) => IntOk(if e >= 0 then m * Pow10(e) else TruncDiv(m, Pow10(-e)))
  }

  /** Python's `int(float(s))`. */
  function IntOfFloatString(s: string): (r: IntResult)
    ensures ParseFloat(s) == None ==> r == ValueErr
    ensures ParseFloat(s).Some? ==> r == IntOf(ParseFloat(s).value)
  {
    match ParseFloat(s)
    case None => ValueErr
    case Some(n) => IntOf(n)
  }

  /** Python's strict `int(s)`: optional sign and grouped digits after stripping; `None` is ValueError. */
  function ParseIntStrict(s: string): (r: Option<int>)
  {
    ParseGroupedSigned(Strip(s))
  }

  /** Whether a float equals the integer `v` (Python's `float(x) == v`). */
  predicate NumEquals(n: Num, v: int) {
    n.Finite? && (if n.exp >= 0 then n.mant * Pow10(n.exp) == v else n.mant == v * Pow10(-n.exp))
  }

  function DigitChar(d: nat): (c: char)
    requires d < 10
    ensures IsDigit(c) && DigitValue(c) == d
  {
    ('0' as int + d) as char
  }

  /** Decimal rendering of a natural number. */
  function NatToString(n: nat): (s: string)
    ensures s != [] && AllDigits(s) && DecValue(s) == n
    decreases n
  {
    if n < 10 then [DigitChar(n)]
    else
      var p := NatToString(n / 10);
      var s := p + [DigitChar(n % 10)];
      assert s[..|s| - 1] == p;
      s
  }

  /** `str(n)` for a Python int, `String(n)` for a JavaScript integer. */
  function IntToString(n: int): (s: string)
    ensures s != []
  {
    if n < 0 then "-" + NatToString(-n) else NatToString(n)
  }

  lemma DigitsHaveNoSpace(s: string)
    requires AllDigits(s)
    ensures s != [] ==> Strip(s) == s
  {
    if s != [] {
      assert IsDigit(s[0]) && IsDigit(s[|s| - 1]);
      StripClean(s);
    }
  }

  lemma IntToStringParts(n: int)
    ensures Strip(IntToString(n)) == IntToString(n)
    ensures SplitSign(IntToString(n)) == (n < 0, NatToString(if n < 0 then -n else n))
  {
    var s := IntToString(n);
    var d := NatToString(if n < 0 then -n else n);
    assert s[|s| - 1] == d[|d| - 1];
    assert IsDigit(d[|d| - 1]);
    StripClean(s);
    if n < 0 {
      assert s[1..] == d;
    }
  }

  /** `int(str(n)) == n`. */
  lemma ParseIntOfIntString(n: int)
    ensures ParseIntStrict(IntToString(n)) == Some(n)
  {
    IntToStringParts(n);
    DigitsAreGrouped(NatToString(if n < 0 then -n else n));
  }

  lemma LowerOfDigits(d: string)
    requires AllDigits(d)
    ensures Lower(d) == d
  {
    var lb := Lower(d);
    forall i | 0 <= i < |d| ensures lb[i] == d[i] {
      assert IsDigit(d[i]);
    }
  }

  lemma FirstIndexAbsent(s: string, c: char)
    requires AllDigits(s) && !IsDigit(c)
    ensures FirstIndex(s, c) == |s|
  {
  }

  lemma ParseMantissaOfDigits(d: string)
    requires d != [] && AllDigits(d)
    ensures ParseMantissa(d) == Some((DecValue(d), 0))
  {
    FirstIndexAbsent(d, '.');
    DigitsAreGrouped(d);
    DigitsAreGrouped([]);
    assert d[..|d|] == d && d + [] == d;
  }

  lemma ParseUnsignedOfDigits(d: string)
    requires d != [] && AllDigits(d)
    ensures ParseUnsignedDecimal(d) == Some((DecValue(d), 0))
  {
    FirstIndexAbsent(d, 'e');
    assert d[..|d|] == d;
    ParseMantissaOfDigits(d);
  }

  /** `float(str(n)) == n`, and so `int(float(str(n))) == n`. */
  lemma ParseFloatOfIntString(n: int)
    ensures ParseFloat(IntToString(n)) == Some(Finite(n, 0))
    ensures IntOfFloatString(IntToString(n)) == IntOk(n)
  {
    var s := IntToString(n);
    var d := NatToString(if n < 0 then -n else n);
    IntToStringParts(n);
    assert SplitSign(Strip(s)) == (n < 0, d);
    LowerOfDigits(d);
    NotSpecialWord(d);
    ParseUnsignedOfDigits(d);
    assert Signed(n < 0, DecValue(d)) == n;
    assert ParseFloat(s) == Some(Finite(n, 0));
    assert IntOf(Finite(n, 0)) == IntOk(n * Pow10(0));
  }

  lemma NotSpecialWord(d: string)
    requires d != [] && AllDigits(d)
    ensures d != "inf" && d != "infinity" && d != "nan"
  {
    assert IsDigit(d[0]);
  }

  lemma {:induction false} DropUnderscoresAppend(x: string, y: string)
    requires DigitsOrUnderscores(x) && DigitsOrUnderscores(y)
    ensures DigitsOrUnderscores(x + y)
    ensures DropUnderscores(x + y) == DropUnderscores(x) + DropUnderscores(y)
    decreases |x|
  {
    assert DigitsOrUnderscores(x + y) by {
      forall i | 0 <= i < |x + y| ensures IsDigit((x + y)[i]) || (x + y)[i] == '_' {
        if i >= |x| { assert (x + y)[i] == y[i - |x|]; }
      }
    }
    if x != [] {
      assert (x + y)[1..] == x[1..] + y;
      DropUnderscoresAppend(x[1..], y);
    } else {
      assert x + y == y;
    }
  }

  /** `int()` reads an `_` between two digits as nothing: `int("1_000") == 1000`. */
  lemma UnderscoreBetweenDigits(a: string, b: string)
    requires a != [] && b != [] && AllDigits(a) && AllDigits(b)
    ensures ParseIntStrict(a + "_" + b) == Some(DecValue(a + b))
  {
    var t := a + "_" + b;
    assert Grouped(t) by {
      forall i | 0 <= i < |t| && i != |a| ensures IsDigit(t[i]) {
        if i < |a| { assert t[i] == a[i]; } else { assert t[i] == b[i - |a| - 1]; }
      }
      assert t[|a| - 1] == a[|a| - 1] && t[|a| + 1] == b[0];
    }
    assert DropUnderscores(t) == a + b by {
      var u := "_" + b;
      assert t == a + u && u[1..] == b;
      assert DigitsOrUnderscores(u) by {
        forall i | 0 <= i < |u| ensures IsDigit(u[i]) || u[i] == '_' {
          if i > 0 { assert u[i] == b[i - 1]; }
        }
      }
      assert DropUnderscores(u) == DropUnderscores(b);
      DigitsAreGrouped(a);
      DigitsAreGrouped(b);
      DropUnderscoresAppend(a, u);
    }
    GroupedTextInt(t);
  }

  /** `int()` rejects an `_` that is doubled, leading or trailing. */
  lemma MisplacedUnderscore(a: string, b: string)
    requires AllDigits(a) && AllDigits(b)
    ensures ParseIntStrict(a + "__" + b) == None
    ensures ParseIntStrict("_" + a) == None
    ensures ParseIntStrict(a + "_") == None
  {
    DoubledUnderscore(a, b);
    LeadingUnderscore(a);
    TrailingUnderscore(a);
  }

  lemma DoubledUnderscore(a: string, b: string)
    requires AllDigits(a) && AllDigits(b)
    ensures ParseIntStrict(a + "__" + b) == None
  {
    var t := a + "__" + b;
    assert DigitsOrUnderscores(t) by {
      forall i | 0 <= i < |t| ensures IsDigit(t[i]) || t[i] == '_' {
        if i < |a| { assert t[i] == a[i]; } else if i > |a| + 1 { assert t[i] == b[i - |a| - 2]; }
      }
    }
    assert !Grouped(t) by {
      assert t[|a|] == '_' && t[|a| + 1] == '_';
    }
    GroupedTextInt(t);
  }

  lemma LeadingUnderscore(a: string)
    requires AllDigits(a)
    ensures ParseIntStrict("_" + a) == None
  {
    var u := "_" + a;
    assert DigitsOrUnderscores(u) by {
      forall i | 0 <= i < |u| ensures IsDigit(u[i]) || u[i] == '_' {
        if i > 0 { assert u[i] == a[i - 1]; }
      }
    }
    assert !Grouped(u) by {
      assert u[0] == '_';
    }
    GroupedTextInt(u);
  }

  lemma TrailingUnderscore(a: string)
    requires AllDigits(a)
    ensures ParseIntStrict(a + "_") == None
  {
    var v := a + "_";
    assert DigitsOrUnderscores(v) by {
      forall i | 0 <= i < |v| ensures IsDigit(v[i]) || v[i] == '_' {
        if i < |a| { assert v[i] == a[i]; }
      }
    }
    assert !Grouped(v) by {
      assert v[|v| - 1] == '_';
    }
    GroupedTextInt(v);
  }

  /** On digits and underscores alone, `int()` reads exactly the grouped texts, as their digits. */
  lemma GroupedTextInt(t: string)
    requires t != [] && DigitsOrUnderscores(t)
    ensures ParseIntStrict(t) == if Grouped(t) then Some(DecValue(DropUnderscores(t))) else None
  {
    assert IsDigit(t[0]) || t[0] == '_';
    assert IsDigit(t[|t| - 1]) || t[|t| - 1] == '_';
    StripClean(t);
    assert SplitSign(t) == (false, t);
  }

  /** A text whose stripped form contains a decimal point is never an integer for `int()`. */
  lemma {:induction false} IntStrictRejectsPoint(s: string)
    requires '.' in Strip(s)
    ensures ParseIntStrict(s) == None
  {
    var t := Strip(s);
    var (neg, body) := SplitSign(t);
    var k :| 0 <= k < |t| && t[k] == '.';
    var j := if body == t then k else k - 1;
    assert 0 <= j < |body| && body[j] == '.';
  }
}
