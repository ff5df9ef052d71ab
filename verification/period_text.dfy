/**
 * The canonical text of a period, as YearMonth.toString renders it and as it
 * appears in file names and request URLs: the year zero-padded to at least
 * four digits (with a leading '-' when negative, no sign otherwise), a '-',
 * and the month as two digits. `Parse` reads that form back.
 */
module PeriodText {
  import opened Wrappers
  import opened Periods
  import opened Decimal

  function YearText(year: int): (s: string)
    ensures 4 <= |s|
    ensures year < 0 <==> s[0] == '-'
  {
    if year < 0 then "-" + PadLeft(NatToText(-year), 4) else PadLeft(NatToText(year), 4)
  }

  function MonthText(month: MonthOfYear): (s: string)
    ensures |s| == 2 && AllDigits(s)
  {
    PadLeft(NatToText(month), 2)
  }

  /** `yyyy-MM`, e.g. "2020-03", "0999-12", "-0005-01", "12345-07". */
  function Format(p: YearMonth): (s: string)
    ensures 7 <= |s|
    ensures forall i :: 0 <= i < |s| ==> IsDigit(s[i]) || s[i] == '-'
  {
    YearText(p.year) + "-" + MonthText(p.month)
  }

  /** Reads a year: optional '-', then at least one digit. */
  function ParseYear(y: string): Option<int> {
    if |y| > 0 && y[0] == '-' then
      if |y| == 1 || !AllDigits(y[1..]) then None else Some(0 - TextToNat(y[1..]))
    else if |y| == 0 || !AllDigits(y) then None
    else Some(TextToNat(y))
  }

  /** Reads the canonical form; None for anything that is not one. */
  function Parse(s: string): Option<YearMonth> {
    if |s| < 3 || s[|s| - 3] != '-' || !AllDigits(s[|s| - 2..]) then None
    else
      var m := TextToNat(s[|s| - 2..]);
      match ParseYear(s[..|s| - 3])
      case None => None
      case Some(year) => if 1 <= m <= 12 then Some(YearMonth(year, m)) else None
  }

  lemma ParseYearText(year: int)
    ensures ParseYear(YearText(year)) == Some(year)
  {
    var y := YearText(year);
    if year < 0 {
      assert y[1..] == PadLeft(NatToText(-year), 4);
      PaddedRoundTrip(-year, 4);
    } else {
      PaddedRoundTrip(year, 4);
    }
  }

  /** The separator and the two parts of `y-mt` sit where Parse looks for them. */
  lemma SplitAtSeparator(y: string, mt: string)
    requires |mt| == 2
    ensures var s := y + "-" + mt;
      && |s| >= 3 && s[|s| - 3] == '-' && s[|s| - 2..] == mt && s[..|s| - 3] == y
  {
    var s := y + "-" + mt;
    assert s[|s| - 2..] == mt;
    assert s[..|s| - 3] == y;
  }

  /** Parsing the rendered text of a period gives the period back. */
  lemma ParseFormat(p: YearMonth)
    ensures Parse(Format(p)) == Some(p)
  {
    var y, mt := YearText(p.year), MonthText(p.month);
    SplitAtSeparator(y, mt);
    PaddedRoundTrip(p.month, 2);
    ParseYearText(p.year);
    assert Parse(y + "-" + mt) == Some(p);
  }

  /** Distinct periods have distinct texts. */
  lemma FormatInjective(p: YearMonth, q: YearMonth)
    ensures Format(p) == Format(q) <==> p == q
  {
    ParseFormat(p);
    ParseFormat(q);
  }
}
