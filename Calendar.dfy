/** Calendar values and the backend's date format.

    The Hijri/Gregorian converter and the month-length function are foreign code: they are
    not modelled, and every operation that needs them takes them as parameters, assumed
    only to be total (no monotonicity, no round trip). */
module Calendar {
  import opened Common
  import opened Strings

  datatype HijriDate = HijriDate(year: int, month: int, day: int)

  datatype GregorianDate = GregorianDate(year: int, month: int, day: int)

  /** `hijriToGregorian` of the converter library. */
  type Converter = HijriDate -> GregorianDate

  /** `getHijriMonthDays(year, month)`: how many days a Hijri month has. */
  type MonthLength = (int, int) -> int

  /** The query-string date: `${year}-${String(month).padStart(2, "0")}-${String(day).padStart(2, "0")}`,
      the extended calendar-date form YYYY-MM-DD of ISO 8601 for four-digit years. Every date
      with non-negative fields is read back from it exactly. */
  function FormatIsoDate(g: GregorianDate): (s: string)
    ensures g.year >= 0 && g.month >= 0 && g.day >= 0 ==> ParseIsoDate(s) == Some(g)
  {
    var y := IntToString(g.year);
    var m := PadStart(IntToString(g.month), 2, '0');
    var d := PadStart(IntToString(g.day), 2, '0');
    if g.year >= 0 && g.month >= 0 && g.day >= 0 then
      NatToStringRoundTrip(g.year);
      PadStartRoundTrip(g.month, 2);
      PadStartRoundTrip(g.day, 2);
      ParseDashed(y, m, d);
      Dashed(y, m, d)
    else
      Dashed(y, m, d)
  }

  /** Three fields joined by dashes. */
  function Dashed(a: string, b: string, c: string): string
  {
    a + "-" + (b + "-" + c)
  }

  /** Where each field and each dash of `Dashed(a, b, c)` sits. */
  lemma DashedLayout(a: string, b: string, c: string)
    ensures |Dashed(a, b, c)| == |a| + |b| + |c| + 2
    ensures Dashed(a, b, c)[|a|] == '-' && Dashed(a, b, c)[|a| + 1 + |b|] == '-'
    ensures Dashed(a, b, c)[..|a|] == a
    ensures Dashed(a, b, c)[|a| + 1..] == b + "-" + c
    ensures forall k :: 0 <= k < |a| ==> Dashed(a, b, c)[k] == a[k]
    ensures forall k :: 0 <= k < |b| ==> Dashed(a, b, c)[|a| + 1 + k] == b[k]
    ensures forall k :: 0 <= k < |c| ==> Dashed(a, b, c)[|a| + |b| + 2 + k] == c[k]
  {
  }

  /** Splitting at the first two dashes gives the three fields back when none has a dash. */
  lemma ParseDashed(a: string, b: string, c: string)
    requires |a| > 0 && |b| > 0 && |c| > 0 && AllDigits(a) && AllDigits(b) && AllDigits(c)
    ensures ParseIsoDate(Dashed(a, b, c))
            == Some(GregorianDate(DigitsValue(a), DigitsValue(b), DigitsValue(c)))
  {
    var t := b + "-" + c;
    var s := a + "-" + t;
    assert Dashed(a, b, c) == s;
    FirstDashAfter(a, t);
    assert s[|a| + 1..] == t;
    assert s[..|a|] == a;
    FirstDashAfter(b, c);
    assert t[..|b|] == b;
    assert t[|b| + 1..] == c;
  }

  predicate IsDash(c: char) { c == '-' }

  /** Reads a date written as digits, dash, digits, dash, digits: the inverse of FormatIsoDate. */
  function ParseIsoDate(s: string): Option<GregorianDate>
  {
    match FindFirst(s, IsDash)
    case None => None
    case Some(i) =>
      var rest := s[i + 1..];
      match FindFirst(rest, IsDash)
      case None => None
      case Some(j) =>
        var y, m, d := s[..i], rest[..j], rest[j + 1..];
        if |y| > 0 && |m| > 0 && |d| > 0 && AllDigits(y) && AllDigits(m) && AllDigits(d)
        then Some(GregorianDate(DigitsValue(y), DigitsValue(m), DigitsValue(d)))
        else None
  }

  /** The first dash of `a + "-" + b` is the one after `a` when `a` has none. */
  lemma FirstDashAfter(a: string, b: string)
    requires AllDigits(a)
    ensures FindFirst(a + "-" + b, IsDash) == Some(|a|)
  {
    var s := a + "-" + b;
    assert s[|a|] == '-';
    assert forall k :: 0 <= k < |a| ==> s[k] == a[k];
    match FindFirst(s, IsDash)
    case None =>
    case Some(i) =>
      assert i <= |a|;
  }

  lemma NatToStringAtMostTwo(n: nat)
    requires n < 100
    ensures |NatToString(n)| <= 2
  {
    if n >= 10 {
      assert |NatToString(n)| == |NatToString(n / 10)| + 1;
    }
  }

  /** For a four-digit year and a month and day below 100 the string is exactly
      `YYYY-MM-DD`: ten characters, dashes at positions 4 and 7, digits everywhere else. */
  lemma FormatIsoDateShape(g: GregorianDate)
    requires 1000 <= g.year <= 9999 && 0 <= g.month < 100 && 0 <= g.day < 100
    ensures |FormatIsoDate(g)| == 10
    ensures FormatIsoDate(g)[4] == '-' && FormatIsoDate(g)[7] == '-'
    ensures forall k :: 0 <= k < 10 && k != 4 && k != 7 ==> IsDigit(FormatIsoDate(g)[k])
  {
    NatToStringFourDigits(g.year);
    NatToStringAtMostTwo(g.month);
    NatToStringAtMostTwo(g.day);
    var y := IntToString(g.year);
    var m := PadStart(IntToString(g.month), 2, '0');
    var d := PadStart(IntToString(g.day), 2, '0');
    assert |y| == 4 && |m| == 2 && |d| == 2;
    assert AllDigits(m) && AllDigits(d);
    DashedLayout(y, m, d);
  }
}
