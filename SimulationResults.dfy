/** The return projection the results view shows for an investment over a
    term in months: the annual rate looked up by term, the gross returns, the
    4 % retention, the net returns and the total at maturity; and the two
    pieces of term text it prints (the month label and the end month).
    Amounts are exact rationals here, where the view computes with doubles. */
module SimulationResults {
  import opened JsText

  /** Share of the gross returns withheld as tax. */
  const RetentionRate: real := 0.04

  /** `getAnnualRate`: the rate of the first band whose inclusive upper bound
      the term does not exceed. */
  function AnnualRate(months: int): (r: real)
    ensures 0.085 <= r <= 0.098
  {
    if months <= 3 then 0.085
    else if months <= 6 then 0.093
    else if months <= 12 then 0.096
    else 0.098
  }

  /** Every band, with both of its ends. */
  lemma AnnualRateBands(months: int)
    ensures months <= 3 ==> AnnualRate(months) == 0.085
    ensures 4 <= months <= 6 ==> AnnualRate(months) == 0.093
    ensures 7 <= months <= 12 ==> AnnualRate(months) == 0.096
    ensures 13 <= months ==> AnnualRate(months) == 0.098
  {
  }

  /** The rate is one of the four tabulated values, never below the first
      nor above the last. */
  lemma AnnualRateTabulated(months: int)
    ensures AnnualRate(months) in {0.085, 0.093, 0.096, 0.098}
    ensures 0.085 <= AnnualRate(months) <= 0.098
  {
  }

  /** A longer term never earns a lower rate. */
  lemma AnnualRateMonotonic(m1: int, m2: int)
    requires m1 <= m2
    ensures AnnualRate(m1) <= AnnualRate(m2)
  {
  }

  datatype Projection = Projection(
    annualRate: real,
    grossReturns: real,
    retention: real,
    netReturns: real,
    totalAmount: real)

  /** The figures of the results view for `investment` over `term` months
      (the gross returns, the 4 % retention, the net returns and the total). */
  function Project(investment: int, term: int): (p: Projection)
    ensures p.annualRate == AnnualRate(term)
    ensures p.grossReturns * 12.0 == investment as real * p.annualRate * term as real
    ensures p.retention == RetentionRate * p.grossReturns
    ensures p.netReturns == 0.96 * p.grossReturns
    ensures p.totalAmount == investment as real + p.netReturns
  {
    var annualRate := AnnualRate(term);
    var grossReturns := (investment as real * annualRate * term as real) / 12.0;
    var retention := grossReturns * RetentionRate;
    var netReturns := grossReturns - retention;
    Projection(annualRate, grossReturns, retention, netReturns, investment as real + netReturns)
  }

  /** Returns are never negative for a non-negative investment and term, so
      the total is at least the investment; with both positive it is more. */
  lemma TotalCoversInvestment(investment: int, term: int)
    requires investment >= 0 && term >= 0
    ensures Project(investment, term).grossReturns >= 0.0
    ensures Project(investment, term).netReturns <= Project(investment, term).grossReturns
    ensures Project(investment, term).totalAmount >= investment as real
    ensures investment > 0 && term > 0 ==> Project(investment, term).totalAmount > investment as real
  {
    var p := Project(investment, term);
    var i, t := investment as real, term as real;
    assert i * p.annualRate >= 0.0;
    assert i * p.annualRate * t >= 0.0;
    if investment > 0 && term > 0 {
      assert i * p.annualRate > 0.0;
      assert i * p.annualRate * t > 0.0;
    }
  }

  /** The default simulation: 10,000,000 over 5 months falls in the
      4-6 month band. */
  lemma DefaultSimulation()
    ensures Project(10000000, 5) == Projection(0.093, 387500.0, 15500.0, 372000.0, 10372000.0)
  {
  }

  /** The smallest advertised amount over one month. */
  lemma SmallestOneMonthSimulation()
    ensures Project(500000, 1).grossReturns == 42500.0 / 12.0
    ensures Project(500000, 1).netReturns == 3400.0
    ensures Project(500000, 1).totalAmount == 503400.0
  {
  }

  /** The word after the term: singular for exactly one month. */
  function MonthLabel(term: int): (r: string)
    ensures r == "Mes" <==> term == 1
    ensures r == "Meses" <==> term != 1
  {
    if term == 1 then "Mes" else "Meses"
  }

  /** The term as the results view writes it: the number, a space, the month
      label. */
  function TermText(term: int): string {
    IntToString(term) + " " + MonthLabel(term)
  }

  /** The term text starts with the term itself. */
  lemma TermTextStartsWithTerm(term: int)
    ensures ParseInt(TermText(term)) == Some(term)
  {
    assert TermText(term) == IntToString(term) + (" " + MonthLabel(term));
    ParseIntOfIntToString(term, " " + MonthLabel(term));
  }

  /** JavaScript's `%`: the remainder of truncating division, which takes the
      sign of the dividend. */
  function JsRemainder(a: int, b: int): (r: int)
    requires b > 0
    ensures a >= 0 ==> r == a % b
    ensures a < 0 ==> r <= 0
    ensures -b < r < b
  {
    if a >= 0 then a % b else -((-a) % b)
  }

  /** Negating the dividend negates the remainder, as truncation toward zero
      does. */
  lemma JsRemainderNegates(a: int, b: int)
    requires b > 0
    ensures JsRemainder(-a, b) == -JsRemainder(a, b)
  {
  }

  /** The month number the results view shows after the end date's day:
      `((month + term) % 12) + 1`, with the current month (the 0-based
      `getMonth()`) as a parameter.  Only a negative sum leaves 1..12. */
  function EndMonth(currentMonth: int, term: int): (r: int)
    ensures -10 <= r <= 12
    ensures currentMonth + term >= 0 ==> 1 <= r
  {
    JsRemainder(currentMonth + term, 12) + 1
  }

  /** The end month as the results view writes it, zero-padded to at least
      two characters. */
  function EndMonthText(currentMonth: int, term: int): (r: string)
    ensures |r| >= 2
  {
    PadStart(IntToString(EndMonth(currentMonth, term)), 2, '0')
  }

  /** For a month of the year and a non-negative term, the end month is the
      calendar month `term` months on, 1-based, and its text is two digits
      that read back as that month. */
  lemma EndMonthIsCalendarMonth(currentMonth: int, term: int)
    requires 0 <= currentMonth <= 11 && term >= 0
    ensures 1 <= EndMonth(currentMonth, term) <= 12
    ensures EndMonth(currentMonth, term) - 1 == (currentMonth + term) % 12
    ensures |EndMonthText(currentMonth, term)| == 2
    ensures AllDigits(EndMonthText(currentMonth, term))
    ensures ParseInt(EndMonthText(currentMonth, term)) == Some(EndMonth(currentMonth, term))
  {
    TwoDigitMonthText(EndMonth(currentMonth, term));
  }

  /** A month number 1..12 padded to two characters is two digits that
      read back as the number. */
  lemma TwoDigitMonthText(e: int)
    requires 1 <= e <= 12
    ensures |PadStart(IntToString(e), 2, '0')| == 2
    ensures AllDigits(PadStart(IntToString(e), 2, '0'))
    ensures ParseInt(PadStart(IntToString(e), 2, '0')) == Some(e)
  {
    if e < 10 {
      OneDigitMonthText(e);
    } else {
      TwoDigitsMonthText(e);
    }
  }

  lemma OneDigitMonthText(e: int)
    requires 1 <= e < 10
    ensures PadStart(IntToString(e), 2, '0') == ['0', DigitChar(e)]
    ensures ParseInt(['0', DigitChar(e)]) == Some(e)
  {
    assert IntToString(e) == [DigitChar(e)];
    var s := ['0', DigitChar(e)];
    assert s[..1] == ['0'] && s[..1][..0] == [];
    assert Value(s[..1], 10) == 0;
    assert Value(s, 10) == Value(s[..1], 10) * 10 + DigitValue(DigitChar(e));
    assert Value(s, 10) == e;
    ParseIntOfDigits(s);
    assert ParseInt(s) == Some(e);
  }

  lemma TwoDigitsMonthText(e: int)
    requires 10 <= e <= 12
    ensures PadStart(IntToString(e), 2, '0') == IntToString(e) + []
    ensures |IntToString(e)| == 2 && AllDigits(IntToString(e))
    ensures ParseInt(IntToString(e) + []) == Some(e)
  {
    assert e / 10 == 1 && e % 10 == e - 10;
    assert IntToString(e) == NatToString(1) + [DigitChar(e - 10)];
    ParseIntOfIntToString(e, []);
  }

  /** A negative term that ends before the current year leaves the range:
      month 0 (January) minus one month gives end month 0. */
  lemma EndMonthOfNegativeTerm()
    ensures EndMonth(0, -1) == 0
  {
  }
}
