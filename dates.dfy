/**
 * Date parsing as the import scripts use it: `datetime.strptime` is an
 * abstract partial function of the text and the format (calendar rules
 * are not modelled), the scripts decide which text reaches it and in
 * which order the formats are tried.
 */
module Dates {
  import opened Wrappers
  import opened PyText
  import opened PyNum

  /** The `strptime` formats the scripts use. */
  datatype Format =
    | YmdDash   // '%Y-%m-%d'
    | MdySlash  // '%m/%d/%Y'
    | DmySlash  // '%d/%m/%Y'
    | YmdSlash  // '%Y/%m/%d'
    | MdyDash   // '%m-%d-%Y'
    | DmyDash   // '%d-%m-%Y'

  /** A calendar date; `strptime` only yields years 1..9999, months 1..12 and days 1..31. */
  datatype Date = Date(year: nat, month: nat, day: nat)

  predicate ValidDate(d: Date) {
    1 <= d.year <= 9999 && 1 <= d.month <= 12 && 1 <= d.day <= 31
  }

  /** `datetime.strptime(text, format)`; `None` is the ValueError it raises. */
  type Strptime = (string, Format) -> Option<Date>

  /**
   * The index of the first format that parses `s`, or `|formats|` when
   * none does: the `for fmt in date_formats: try: return …` loop.
   */
  function FirstParsing(strptime: Strptime, s: string, formats: seq<Format>): (k: nat)
    ensures k <= |formats|
    ensures forall j :: 0 <= j < k ==> strptime(s, formats[j]).None?
    ensures k < |formats| ==> strptime(s, formats[k]).Some?
    decreases |formats|
  {
    if formats == [] then 0
    else if strptime(s, formats[0]).Some? then 0
    else 1 + FirstParsing(strptime, s, formats[1..])
  }

  /** The date of the first format that parses `s`; `None` when none does. */
  function TryFormats(strptime: Strptime, s: string, formats: seq<Format>): (r: Option<Date>)
    ensures r.None? <==> forall j :: 0 <= j < |formats| ==> strptime(s, formats[j]).None?
    ensures r.Some? ==> exists j :: 0 <= j < |formats| && strptime(s, formats[j]) == r
  {
    var k := FirstParsing(strptime, s, formats);
    if k < |formats| then strptime(s, formats[k]) else None
  }

  /** A format that parses wins over every format listed after it. */
  lemma EarlierFormatWins(strptime: Strptime, s: string, formats: seq<Format>, i: nat)
    requires i < |formats| && strptime(s, formats[i]).Some?
    requires forall j :: 0 <= j < i ==> strptime(s, formats[j]).None?
    ensures TryFormats(strptime, s, formats) == strptime(s, formats[i])
  {
    var k := FirstParsing(strptime, s, formats);
    assert k == i;
  }

  /** `str(n).zfill(w)` for a natural number: at least `w` digits, padded with zeros on the left. */
  function ZeroPad(n: nat, w: nat): (r: string)
    ensures |r| >= w && AllDigits(r)
    ensures DecValue(r) == n
  {
    var d := NatToString(n);
    NatDigits(n);
    Pad(d, w)
  }

  function Pad(d: string, w: nat): (r: string)
    requires AllDigits(d)
    ensures |r| >= w && |r| >= |d| && AllDigits(r) && DecValue(r) == DecValue(d)
    decreases w - |d|
  {
    if |d| >= w then d
    else
      LeadingZero(d);
      Pad("0" + d, w)
  }

  lemma NatDigits(n: nat)
    ensures AllDigits(NatToString(n)) && DecValue(NatToString(n)) == n
  {
    IntToStringParts(n);
  }

  lemma LeadingZero(d: string)
    requires AllDigits(d)
    ensures AllDigits("0" + d) && DecValue("0" + d) == DecValue(d)
  {
    DecValueZeroPrefix(d);
  }

  lemma {:induction false} DecValueZeroPrefix(d: string)
    requires AllDigits(d)
    ensures AllDigits("0" + d) && DecValue("0" + d) == DecValue(d)
    decreases |d|
  {
    var z := "0" + d;
    if d == [] {
      assert z[..0] == [];
    } else {
      var front := d[..|d| - 1];
      DecValueZeroPrefix(front);
      assert z[..|z| - 1] == "0" + front;
    }
  }

  /** Numbers below `10^k` have at most `k` digits. */
  lemma {:induction false} NatLength(n: nat, k: nat)
    requires k >= 1 && n < Pow10(k)
    ensures |NatToString(n)| <= k
    decreases n
  {
    if n >= 10 {
      NatLength(n / 10, k - 1);
    }
  }

  lemma {:induction false} PadExact(d: string, w: nat)
    requires AllDigits(d) && |d| <= w
    ensures |Pad(d, w)| == w
    decreases w - |d|
  {
    if |d| < w {
      LeadingZero(d);
      PadExact("0" + d, w);
    }
  }

  /** `strftime('%Y-%m-%d')`: four-digit year, two-digit month and day, joined by '-'. */
  function IsoText(d: Date): (r: string) {
    ZeroPad(d.year, 4) + "-" + ZeroPad(d.month, 2) + "-" + ZeroPad(d.day, 2)
  }

  /** The ISO text of a date has ten characters and reads back as the date. */
  lemma IsoTextReadsBack(d: Date)
    requires ValidDate(d)
    ensures var t := IsoText(d);
      && |t| == 10 && t[4] == '-' && t[7] == '-'
      && DecValue(t[..4]) == d.year && DecValue(t[5..7]) == d.month && DecValue(t[8..]) == d.day
  {
    var y, m, dd := ZeroPad(d.year, 4), ZeroPad(d.month, 2), ZeroPad(d.day, 2);
    PadWidth(d.year, 4);
    PadWidth(d.month, 2);
    PadWidth(d.day, 2);
    var t := IsoText(d);
    assert t == y + "-" + m + "-" + dd;
    assert t[..4] == y && t[5..7] == m && t[8..] == dd;
  }

  /** A number below `10^w` pads to exactly `w` digits. */
  lemma PadWidth(n: nat, w: nat)
    requires 1 <= w <= 4 && n < Pow10(w)
    ensures |ZeroPad(n, w)| == w
  {
    NatDigits(n);
    NatLength(n, w);
    PadExact(NatToString(n), w);
  }
}
