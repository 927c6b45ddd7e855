/** The date check of `add_expense`: `datetime.strptime(date_str, "%Y-%m-%d")`
    followed by `strftime("%Y-%m-%d")`. The parser follows the patterns that
    Python's `_strptime` uses for the three directives (a four-digit year; a
    month `1[0-2]|0[1-9]|[1-9]`; a day `3[01]|[12]\d|0[1-9]|[1-9]| [1-9]`),
    its "unconverted data remains" rejection of trailing text, and the
    calendar range check of `datetime`. */
module Dates {
  import opened Wrappers
  import opened Numerals

  datatype Date = Date(year: int, month: int, day: int)

  /** The Gregorian leap-year rule. */
  predicate IsLeapYear(y: int) {
    y % 4 == 0 && (y % 100 != 0 || y % 400 == 0)
  }

  function DaysInMonth(y: int, m: int): (n: int)
    requires 1 <= m <= 12
    ensures 28 <= n <= 31
    ensures n == 29 <==> m == 2 && IsLeapYear(y)
  {
    if m == 2 then (if IsLeapYear(y) then 29 else 28)
    else if m == 4 || m == 6 || m == 9 || m == 11 then 30
    else 31
  }

  /** A date `datetime` accepts: years 1 to 9999, and a day within its month. */
  predicate ValidDate(d: Date) {
    1 <= d.year <= 9999 && 1 <= d.month <= 12 && 1 <= d.day <= DaysInMonth(d.year, d.month)
  }

  /** Length of the text the month pattern `1[0-2]|0[1-9]|[1-9]` matches at
      the start of `t`, alternatives tried in order; 0 when none matches.
      Backtracking into a later alternative can never help the `-` that must
      follow, so the first alternative that matches is the one used. */
  function MonthToken(t: string): (n: nat)
    ensures n <= 2 && n <= |t|
    ensures n > 0 ==> AllDigits(t[..n])
  {
    if |t| >= 2 && t[0] == '1' && '0' <= t[1] <= '2' then 2
    else if |t| >= 2 && t[0] == '0' && '1' <= t[1] <= '9' then 2
    else if |t| >= 1 && '1' <= t[0] <= '9' then 1
    else 0
  }

  /** Length of the text the day pattern `3[01]|[12]\d|0[1-9]|[1-9]| [1-9]`
      matches at the start of `t`; 0 when none matches. The day is the last
      directive, so the first alternative that matches ends the match. */
  function DayToken(t: string): (n: nat)
    ensures n <= 2 && n <= |t|
  {
    if |t| >= 2 && t[0] == '3' && '0' <= t[1] <= '1' then 2
    else if |t| >= 2 && '1' <= t[0] <= '2' && IsDigit(t[1]) then 2
    else if |t| >= 2 && t[0] == '0' && '1' <= t[1] <= '9' then 2
    else if |t| >= 1 && '1' <= t[0] <= '9' then 1
    else if |t| >= 2 && t[0] == ' ' && '1' <= t[1] <= '9' then 2
    else 0
  }

  /** The accepted day text read as a number (`int()` ignores the leading space). */
  function DayValue(t: string): nat
    requires 1 <= |t| <= 2
    requires (t[0] == ' ' && |t| == 2 && IsDigit(t[1])) || AllDigits(t)
  {
    if t[0] == ' ' then DigitValue(t[1]) else Value(t)
  }

  /** `datetime.strptime(s, "%Y-%m-%d")`: the date `s` denotes, or `None`
      where Python raises `ValueError`. */
  function ParseDate(s: string): (r: Option<Date>)
    ensures r.Some? ==> ValidDate(r.value)
  {
    if |s| < 5 || !AllDigits(s[..4]) || s[4] != '-' then None
    else
      var ml := MonthToken(s[5..]);
      if ml == 0 || |s| <= 6 + ml || s[5 + ml] != '-' then None
      else
        var rest := s[6 + ml..];
        var dl := DayToken(rest);
        if dl == 0 || dl != |rest| then None
        else
          var d := Date(Value(s[..4]), Value(s[5..5 + ml]), DayValue(rest));
          if ValidDate(d) then Some(d) else None
  }

  /** The text written for a year by `%Y`: four digits. */
  function Pad4(n: nat): (r: string)
    requires n < 10000
    ensures |r| == 4 && AllDigits(r) && Value(r) == n
  {
    var r := Pad2(n / 100) + Pad2(n % 100);
    assert r[..3] == Pad2(n / 100) + [r[2]];
    assert r[..2] == Pad2(n / 100);
    r
  }

  /** `date.strftime("%Y-%m-%d")`: the zero-padded `YYYY-MM-DD` form. */
  function FormatDate(d: Date): (r: string)
    requires ValidDate(d)
    ensures |r| == 10 && r[4] == '-' && r[7] == '-'
    ensures AllDigits(r[..4]) && AllDigits(r[5..7]) && AllDigits(r[8..])
    ensures Value(r[..4]) == d.year && Value(r[5..7]) == d.month && Value(r[8..]) == d.day
  {
    var r := Pad4(d.year) + "-" + Pad2(d.month) + "-" + Pad2(d.day);
    assert r[..4] == Pad4(d.year) && r[5..7] == Pad2(d.month) && r[8..] == Pad2(d.day);
    r
  }

  /** The validation and re-formatting step of `add_expense`: the
      normalised date text, or `None` when `strptime` raises. */
  function NormaliseDate(s: string): Option<string> {
    match ParseDate(s)
    case None => None
    case Some(d) => Some(FormatDate(d))
  }

  // ---------------------------------------------------------------------
  // The accepted grammar, stated on its own.

  /** A month field: one or two digits spelling 1 to 12. */
  predicate MonthText(t: string) {
    1 <= |t| <= 2 && AllDigits(t) && 1 <= Value(t) <= 12
  }

  /** A day field: one or two digits spelling 1 to 31, or a space followed by
      a digit 1 to 9. */
  predicate DayText(t: string) {
    || (1 <= |t| <= 2 && AllDigits(t) && 1 <= Value(t) <= 31)
    || (|t| == 2 && t[0] == ' ' && '1' <= t[1] <= '9')
  }

  /** `s` is a four-digit year, `-`, a month field of `ml` characters, `-`,
      and a day field, and together they name a calendar date. */
  predicate AcceptedWith(s: string, ml: nat)
    requires |s| >= 5 && AllDigits(s[..4])
  {
    && 6 + ml <= |s|
    && s[5 + ml] == '-'
    && MonthText(s[5..5 + ml])
    && DayText(s[6 + ml..])
    && ValidDate(Date(Value(s[..4]), Value(s[5..5 + ml]), DayValue(s[6 + ml..])))
  }

  /** The strings `strptime(s, "%Y-%m-%d")` accepts. */
  predicate Accepted(s: string) {
    |s| >= 5 && AllDigits(s[..4]) && s[4] == '-' && (AcceptedWith(s, 1) || AcceptedWith(s, 2))
  }

  /** The month pattern matches exactly the month fields followed by `-`. */
  lemma MonthTokenMatchesField(t: string, ml: nat)
    requires ml < |t| && t[ml] == '-'
    ensures MonthToken(t) == ml && ml > 0 <==> MonthText(t[..ml])
  {
    if ml == 1 {
      if AllDigits(t[..1]) {
        ValueOfOne(t[..1]);
      }
    } else if ml == 2 {
      if AllDigits(t[..2]) {
        ValueOfTwo(t[..2]);
      }
    }
  }

  /** The day pattern consumes the whole of `t` exactly when `t` is a day field. */
  lemma DayTokenMatchesField(t: string)
    ensures DayToken(t) == |t| && |t| > 0 <==> DayText(t)
  {
    if |t| == 1 && AllDigits(t) {
      ValueOfOne(t);
    } else if |t| == 2 && AllDigits(t) {
      ValueOfTwo(t);
    }
  }

  /** `strptime` accepts a string exactly when it is in the grammar above,
      and the date it returns is the one its year, month and day fields
      spell. */
  lemma {:induction false} ParseDateAcceptsGrammar(s: string)
    ensures ParseDate(s).Some? <==> Accepted(s)
    ensures ParseDate(s).Some? ==>
              && |s| >= 5 && AllDigits(s[..4])
              && exists ml: nat :: && (ml == 1 || ml == 2) && AcceptedWith(s, ml)
                                   && ParseDate(s).value == Date(Value(s[..4]), Value(s[5..5 + ml]), DayValue(s[6 + ml..]))
  {
    if |s| < 5 || !AllDigits(s[..4]) || s[4] != '-' {
      return;
    }
    var t := s[5..];
    var ml := MonthToken(t);
    if ParseDate(s).Some? {
      assert t[ml] == '-';
      MonthTokenMatchesField(t, ml);
      assert t[..ml] == s[5..5 + ml];
      DayTokenMatchesField(s[6 + ml..]);
      assert AcceptedWith(s, ml);
    } else {
      forall m: nat | m == 1 || m == 2
        ensures !AcceptedWith(s, m)
      {
        if AcceptedWith(s, m) {
          assert t[m] == '-';
          assert t[..m] == s[5..5 + m];
          MonthTokenMatchesField(t, m);
          DayTokenMatchesField(s[6 + m..]);
        }
      }
    }
  }

  /** Every date `datetime` accepts is written in a form it reads back as
      the same date. */
  lemma FormatThenParse(d: Date)
    requires ValidDate(d)
    ensures ParseDate(FormatDate(d)) == Some(d)
  {
    var s := FormatDate(d);
    var t := s[5..];
    ValueOfTwo(s[5..7]);
    ValueOfTwo(s[8..]);
    assert t[..2] == s[5..7];
    assert MonthToken(t) == 2;
    assert s[8..] == s[6 + 2..];
  }

  /** A normalised date is zero-padded `YYYY-MM-DD` text for the same
      calendar date, and normalising it again changes nothing. */
  lemma NormaliseDateCanonical(s: string)
    requires NormaliseDate(s).Some?
    ensures var t := NormaliseDate(s).value;
            && |t| == 10 && t[4] == '-' && t[7] == '-'
            && AllDigits(t[..4]) && AllDigits(t[5..7]) && AllDigits(t[8..])
            && ParseDate(t) == ParseDate(s)
            && NormaliseDate(t) == Some(t)
  {
    FormatThenParse(ParseDate(s).value);
  }

  /** Day-month-year order is refused. */
  lemma DayFirstRejected()
    ensures ParseDate("01-03-2024") == None
  {
    assert !IsDigit("01-03-2024"[2]);
  }

  /** Unpadded month and day are accepted and come back zero-padded. */
  lemma UnpaddedAccepted()
    ensures ParseDate("2024-3-1") == Some(Date(2024, 3, 1))
    ensures NormaliseDate("2024-3-1") == Some("2024-03-01")
  {
    var s := "2024-3-1";
    assert s[..4] == Pad4(2024);
    assert s[5..6] == "3";
    ValueOfOne("3");
    ValueOfOne("1");
    var d := Date(2024, 3, 1);
    assert ParseDate(s) == Some(d);
    assert Pad2(20) == "20" && Pad2(24) == "24" && Pad2(3) == "03" && Pad2(1) == "01";
    assert FormatDate(d) == "2024-03-01";
  }

  /** A date already in zero-padded form is kept as it is. */
  lemma PaddedDateKept(s: string)
    requires s == "2024-03-01"
    ensures NormaliseDate(s) == Some(s)
  {
    var d := Date(2024, 3, 1);
    assert Pad2(20) == "20" && Pad2(24) == "24" && Pad2(3) == "03" && Pad2(1) == "01";
    assert FormatDate(d) == s;
    FormatThenParse(d);
  }

  /** 29 February 2024 exists: 2024 is a leap year. */
  lemma LeapDayInLeapYear()
    ensures NormaliseDate("2024-02-29") == Some("2024-02-29")
  {
    var d := Date(2024, 2, 29);
    assert Pad2(20) == "20" && Pad2(24) == "24" && Pad2(2) == "02" && Pad2(29) == "29";
    assert FormatDate(d) == "2024-02-29";
    FormatThenParse(d);
  }

  /** 29 February 1900 does not: a century year is a leap year only when
      divisible by 400. */
  lemma NoLeapDayInCenturyYear()
    ensures ParseDate("1900-02-29") == None
  {
    var s := "1900-02-29";
    assert s[..4] == Pad4(1900);
    assert s[5..7] == Pad2(2);
    assert MonthToken(s[5..]) == 2;
  }
}
