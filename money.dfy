/** Amounts. The tracker formats a float with `f"{amount:.2f}"` when it
    writes a row and reads it back with `float()`; here an amount is a whole
    number of pence, so the two-decimal text is exact. */
module Money {
  import opened Wrappers
  import opened Numerals

  /** Text with exactly two digits after its decimal point, at the end. */
  predicate TwoDecimals(r: string) {
    |r| >= 4 && r[|r| - 3] == '.' && AllDigits(r[|r| - 2..])
  }

  /** `f"{amount:.2f}"` for an amount of `cents` hundredths: an optional
      minus sign, the whole units without leading zeros, a point, and
      exactly two fraction digits. */
  function FormatCents(cents: int): (r: string)
    ensures TwoDecimals(r)
    ensures cents >= 0 ==> AllDigits(r[..|r| - 3]) && (r[0] == '0' ==> |r| == 4)
    ensures cents < 0 ==> r[0] == '-' && AllDigits(r[1..|r| - 3]) && (r[1] == '0' ==> |r| == 5)
  {
    var magnitude := if cents < 0 then -cents else cents;
    var unsigned := ToDecimal(magnitude / 100) + "." + Pad2(magnitude % 100);
    assert unsigned[..|unsigned| - 3] == ToDecimal(magnitude / 100);
    assert unsigned[|unsigned| - 2..] == Pad2(magnitude % 100);
    assert unsigned[0] == ToDecimal(magnitude / 100)[0];
    if cents < 0 then
      var r := "-" + unsigned;
      assert r[1..|r| - 3] == unsigned[..|unsigned| - 3];
      r
    else
      unsigned
  }

  /** Digits, a point and two digits, read as hundredths. */
  function ParseUnsigned(t: string): Option<nat> {
    if |t| >= 4 && t[|t| - 3] == '.' && AllDigits(t[..|t| - 3]) && AllDigits(t[|t| - 2..])
    then Some(Value(t[..|t| - 3]) * 100 + Value(t[|t| - 2..]))
    else None
  }

  /** The amount column read back as hundredths (the `float(r["amount"])` of
      `read_expenses`, for the fixed two-decimal text the writer produces);
      `None` where the text is not of that form. */
  function ParseCents(s: string): Option<int> {
    if s != [] && s[0] == '-' then
      match ParseUnsigned(s[1..])
      case None => None
      case Some(v) => Some(-(v as int))
    else
      match ParseUnsigned(s)
      case None => None
      case Some(v) => Some(v as int)
  }

  /** Every written amount reads back as the same amount. */
  lemma {:induction false} ParseFormatCents(cents: int)
    ensures ParseCents(FormatCents(cents)) == Some(cents)
  {
    var magnitude := if cents < 0 then -cents else cents;
    var unsigned := ToDecimal(magnitude / 100) + "." + Pad2(magnitude % 100);
    assert unsigned[..|unsigned| - 3] == ToDecimal(magnitude / 100);
    assert unsigned[|unsigned| - 2..] == Pad2(magnitude % 100);
    ValueOfToDecimal(magnitude / 100);
    assert ParseUnsigned(unsigned) == Some(magnitude);
    if cents < 0 {
      assert ("-" + unsigned)[1..] == unsigned;
    } else {
      assert unsigned[0] != '-';
    }
  }

  /** Different amounts are written differently. */
  lemma FormatCentsInjective(a: int, b: int)
    requires FormatCents(a) == FormatCents(b)
    ensures a == b
  {
    ParseFormatCents(a);
    ParseFormatCents(b);
  }

  /** 12.5 is written as "12.50". */
  lemma TwelveFifty(cents: int)
    requires cents == 1250
    ensures FormatCents(cents) == "12.50"
  {
    assert ToDecimal(12) == "12";
    assert Pad2(50) == "50";
  }
}
