/** The formatter on the library's own currencies: the number texts and the
    formatted amounts its tests expect, and the inputs on which the split
    as written departs from them. */
module FormatterExamples {
  import opened Results
  import opened Digits
  import N = NegativePositions
  import P = PositivePositions
  import opened Currencies
  import opened Monies
  import opened Formatting
  import opened FormattingRules

  /** The currencies of the examples have a ratio of 100, so two decimals. */
  lemma CentCurrencies()
    ensures Decimal(USD) && Decimal(GBP) && Decimal(EUR) && Decimal(SEK)
    ensures Decimal(CAD) && Decimal(DKK) && Decimal(CZK) && Decimal(BRL)
    ensures Exponent(USD) == 2 && Exponent(GBP) == 2 && Exponent(EUR) == 2 && Exponent(SEK) == 2
    ensures Exponent(CAD) == 2 && Exponent(DKK) == 2 && Exponent(CZK) == 2 && Exponent(BRL) == 2
  {
    KnownExponents();
    assert Pow10(2) == 100;
  }

  /** The numerals of the whole units of the examples. */
  lemma NumeralsSmall()
    ensures Numeral(1) == "1" && Numeral(1000) == "1000" && Numeral(1999) == "1999"
  {
    NumeralStep(10, 1, 0); NumeralStep(100, 10, 0); NumeralStep(1000, 100, 0);
    NumeralStep(19, 1, 9); NumeralStep(199, 19, 9); NumeralStep(1999, 199, 9);
  }

  lemma NumeralQuarterMillion()
    ensures Numeral(250000) == "250000"
  {
    NumeralStep(25, 2, 5); NumeralStep(250, 25, 0); NumeralStep(2500, 250, 0);
    NumeralStep(25000, 2500, 0); NumeralStep(250000, 25000, 0);
  }

  lemma NumeralSevenDigits()
    ensures Numeral(1234567) == "1234567"
  {
    NumeralStep(12, 1, 2); NumeralStep(123, 12, 3); NumeralStep(1234, 123, 4);
    NumeralStep(12345, 1234, 5); NumeralStep(123456, 12345, 6); NumeralStep(1234567, 123456, 7);
  }

  lemma NumeralBillion()
    ensures Numeral(1000000000) == "1000000000"
  {
    NumeralStep(10, 1, 0); NumeralStep(100, 10, 0); NumeralStep(1000, 100, 0);
    NumeralStep(10000, 1000, 0); NumeralStep(100000, 10000, 0); NumeralStep(1000000, 100000, 0);
    NumeralStep(10000000, 1000000, 0); NumeralStep(100000000, 10000000, 0);
    NumeralStep(1000000000, 100000000, 0);
  }

  /** The fraction digits of the examples: none for whole amounts. */
  lemma FractionNone()
    ensures FractionDigits(0, 2) == ""
  {
    assert Pow10(2) == 100;
    assert Padded(0, 2) == "00";
  }

  lemma FractionTwelve()
    ensures FractionDigits(12, 2) == "12"
  {
    assert Pow10(2) == 100;
    assert Padded(12, 2) == "12";
  }

  lemma FractionNinetyEight()
    ensures FractionDigits(98, 2) == "98"
  {
    assert Pow10(2) == 100;
    assert Padded(98, 2) == "98";
  }

  lemma SplitsA()
    ensures SplitUnits(100, 100, 2) == Parts("", "1")
    ensures SplitUnits(100000, 100, 2) == Parts("", "1000")
    ensures SplitUnits(199998, 100, 2) == Parts("98", "1999")
  {
    NumeralsSmall(); NumeralQuarterMillion(); NumeralSevenDigits(); NumeralBillion();
    FractionNone(); FractionTwelve(); FractionNinetyEight();
    assert Pow10(2) == 100;
  }
  lemma SplitsB()
    ensures SplitUnits(25000000, 100, 2) == Parts("", "250000")
    ensures SplitUnits(123456712, 100, 2) == Parts("12", "1234567")
    ensures SplitUnits(100000000012, 100, 2) == Parts("12", "1000000000")
  {
    NumeralsSmall(); NumeralQuarterMillion(); NumeralSevenDigits(); NumeralBillion();
    FractionNone(); FractionTwelve(); FractionNinetyEight();
    assert Pow10(2) == 100;
  }

  /** The number text of a two-decimal currency from the split of its amount. */
  lemma NumberText(c: Currency, m: Money, noCents: bool, whole: string, fraction: string)
    requires Decimal(c) && Exponent(c) == 2
    requires SplitUnits(Abs(m.fractional), c.subUnitToUnit, 2) == Parts(fraction, whole)
    ensures FormatNumber(c, m, noCents) ==
      if noCents then Group(whole, c.groupSeparator)
      else Group(whole, c.groupSeparator) + c.decimalSeparator + PadRight(fraction, 2, '0')
  {
  }

  /** A ratio of 100 makes a currency of two decimals. */
  lemma Cents(c: Currency)
    requires c.subUnitToUnit == 100
    ensures Decimal(c) && Exponent(c) == 2
  {
    RoundedLog10OfPower(2);
    assert Pow10(2) == 100;
  }

  lemma PadsOfExamples()
    ensures PadRight("", 2, '0') == "00" && PadRight("12", 2, '0') == "12" && PadRight("98", 2, '0') == "98"
  {
  }

  lemma GroupsOfExamples(g: string)
    ensures Group("1", g) == "1"
    ensures Group("1000", g) == "1" + g + "000"
    ensures Group("1999", g) == "1" + g + "999"
    ensures Group("250000", g) == "250" + g + "000"
    ensures Group("1234567", g) == "1" + g + "234" + g + "567"
  {
    GroupStep("1000", "1", "000", g);
    GroupStep("1999", "1", "999", g);
    GroupStep("250000", "250", "000", g);
    GroupStep("1234", "1", "234", g);
    GroupStep("1234567", "1234", "567", g);
  }

  /** One step of the grouping: the last three digits split off. */
  lemma GroupStep(d: string, init: string, last: string, g: string)
    requires |d| > 3 && |last| == 3 && d == init + last
    ensures Group(d, g) == Group(init, g) + g + last
  {
    assert d[..|d| - 3] == init && d[|d| - 3..] == last;
  }

  lemma GroupBillion(g: string)
    ensures Group("1000000000", g) == "1" + g + "000" + g + "000" + g + "000"
  {
    GroupStep("1000", "1", "000", g);
    GroupStep("1000000", "1000", "000", g);
    GroupStep("1000000000", "1000000", "000", g);
  }

  /** The number texts of the examples, in terms of the currency's two
      separators: `g` between groups of three, `d` before the cents. */
  lemma OneUnitText(c: Currency, m: Money)
    requires c.subUnitToUnit == 100 && m.currency == c && Abs(m.fractional) == 100
    ensures Decimal(c) && FormatNumber(c, m, false) == "1" + c.decimalSeparator + "00"
  {
    Cents(c);
    SplitsA();
    NumberText(c, m, false, "1", "");
    PadsOfExamples();
    GroupsOfExamples(c.groupSeparator);
  }

  lemma ThousandText(c: Currency, m: Money)
    requires c.subUnitToUnit == 100 && m.currency == c && Abs(m.fractional) == 100000
    ensures Decimal(c) && FormatNumber(c, m, false) == "1" + c.groupSeparator + "000" + c.decimalSeparator + "00"
  {
    Cents(c);
    SplitsA();
    NumberText(c, m, false, "1000", "");
    PadsOfExamples();
    GroupsOfExamples(c.groupSeparator);
  }

  lemma NearlyTwoThousandText(c: Currency, m: Money)
    requires c.subUnitToUnit == 100 && m.currency == c && Abs(m.fractional) == 199998
    ensures Decimal(c) && FormatNumber(c, m, false) == "1" + c.groupSeparator + "999" + c.decimalSeparator + "98"
  {
    Cents(c);
    SplitsA();
    NumberText(c, m, false, "1999", "98");
    PadsOfExamples();
    GroupsOfExamples(c.groupSeparator);
  }

  lemma QuarterMillionText(c: Currency, m: Money)
    requires c.subUnitToUnit == 100 && m.currency == c && Abs(m.fractional) == 25000000
    ensures Decimal(c) && FormatNumber(c, m, false) == "250" + c.groupSeparator + "000" + c.decimalSeparator + "00"
  {
    Cents(c);
    SplitsB();
    NumberText(c, m, false, "250000", "");
    PadsOfExamples();
    GroupsOfExamples(c.groupSeparator);
  }

  lemma MillionsText(c: Currency, m: Money, noCents: bool)
    requires c.subUnitToUnit == 100 && m.currency == c && Abs(m.fractional) == 123456712
    ensures Decimal(c)
    ensures var whole := "1" + c.groupSeparator + "234" + c.groupSeparator + "567";
      FormatNumber(c, m, noCents) == if noCents then whole else whole + c.decimalSeparator + "12"
  {
    Cents(c);
    SplitsB();
    NumberText(c, m, noCents, "1234567", "12");
    PadsOfExamples();
    GroupsOfExamples(c.groupSeparator);
  }

  lemma BillionText(c: Currency, m: Money, noCents: bool)
    requires c.subUnitToUnit == 100 && m.currency == c && Abs(m.fractional) == 100000000012
    ensures Decimal(c)
    ensures var g := c.groupSeparator; var whole := "1" + g + "000" + g + "000" + g + "000";
      FormatNumber(c, m, noCents) == if noCents then whole else whole + c.decimalSeparator + "12"
  {
    Cents(c);
    SplitsB();
    NumberText(c, m, noCents, "1000000000", "12");
    PadsOfExamples();
    GroupBillion(c.groupSeparator);
  }

  /** A non-negative amount shown with its symbol is the positive layout
      filled with the symbol and the number text. */
  lemma PositiveText(c: Currency, m: Money, rules: Rules, pos: Option<P.PositivePosition>,
                     symbol: string, number: string, expected: string)
    requires Decimal(c) && |c.symbols| > 0 && m.currency == c && m.fractional >= 0 && rules.showSymbol
    requires ResolveSymbol(c, rules) == symbol && FormatNumber(c, m, rules.noCents) == number
    requires var p := PositiveLayout(c, pos); P.Render(P.SymbolFirst(p), P.WithSpace(p), symbol, number) == expected
    ensures MoneyToString(m, rules, None, pos) == expected
  {
    FormatPositive(c, m, rules, None, pos);
  }

  /** Without its symbol a non-negative amount is its number text. */
  lemma BareText(c: Currency, m: Money, rules: Rules, number: string)
    requires Decimal(c) && |c.symbols| > 0 && m.currency == c && m.fractional >= 0 && !rules.showSymbol
    requires FormatNumber(c, m, rules.noCents) == number
    ensures MoneyToString(m, rules, None, None) == number
  {
    FormatWithoutSymbolPositive(c, m, rules, None, None);
  }

  /** A negative amount shown with its symbol is the negative layout filled
      with the symbol and the number text. */
  lemma NegativeText(c: Currency, m: Money, rules: Rules, neg: Option<N.NegativePosition>,
                     symbol: string, number: string)
    requires Decimal(c) && |c.symbols| > 0 && m.currency == c && m.fractional < 0 && rules.showSymbol
    requires ResolveSymbol(c, rules) == symbol && FormatNumber(c, m, rules.noCents) == number
    ensures MoneyToString(m, rules, neg, None) == N.Render(N.LayoutOf(NegativeLayout(c, neg)), symbol, number)
  {
    FormatNegative(c, m, rules, neg, None);
  }

  lemma ShouldFormatStrings()
    ensures P.Render(true, false, "$", "1" + "." + "00") == "$1.00"
    ensures P.Render(true, false, "\U{00A3}", "1" + "." + "00") == "\U{00A3}1.00"
    ensures P.Render(true, false, "\U{20AC}", "1" + "," + "00") == "\U{20AC}1,00"
    ensures "1" + "." + "00" == "1.00" && "1" + "," + "00" == "1,00"
  {
  }

  /** One unit of the dollar, the pound and the euro, with and without the
      symbol. */
  lemma ShouldFormat()
    ensures Decimal(USD) && Decimal(GBP) && Decimal(EUR)
    ensures MoneyToString(Money(100, USD), NewRules(), None, None) == "$1.00"
    ensures MoneyToString(Money(100, GBP), NewRules(), None, None) == "\U{00A3}1.00"
    ensures MoneyToString(Money(100, EUR), NewRules(), None, None) == "\U{20AC}1,00"
    ensures MoneyToString(Money(100, USD), NewRules(showSymbol := false), None, None) == "1.00"
    ensures MoneyToString(Money(100, GBP), NewRules(showSymbol := false), None, None) == "1.00"
    ensures MoneyToString(Money(100, EUR), NewRules(showSymbol := false), None, None) == "1,00"
  {
    ShouldFormatStrings();
    var on, off := NewRules(), NewRules(showSymbol := false);
    OneUnitText(USD, Money(100, USD));
    OneUnitText(GBP, Money(100, GBP));
    OneUnitText(EUR, Money(100, EUR));
    PositiveText(USD, Money(100, USD), on, None, "$", "1" + "." + "00", "$1.00");
    PositiveText(GBP, Money(100, GBP), on, None, "\U{00A3}", "1" + "." + "00", "\U{00A3}1.00");
    PositiveText(EUR, Money(100, EUR), on, None, "\U{20AC}", "1" + "," + "00", "\U{20AC}1,00");
    BareText(USD, Money(100, USD), off, "1.00");
    BareText(GBP, Money(100, GBP), off, "1.00");
    BareText(EUR, Money(100, EUR), off, "1,00");
  }

  /** The number texts of a thousand units under each pair of separators. */
  lemma ThousandNumbers()
    ensures "1" + "." + "000" + "," + "00" == "1.000,00"
    ensures "1" + "," + "000" + "." + "00" == "1,000.00"
    ensures "1" + " " + "000" + "," + "00" == "1 000,00"
  {
  }

  lemma ThousandLayouts()
    ensures P.Render(true, false, "R$", "1.000,00") == "R$1.000,00"
    ensures P.Render(true, false, "$", "1,000.00") == "$1,000.00"
    ensures P.Render(true, false, "\U{20AC}", "1.000,00") == "\U{20AC}1.000,00"
    ensures P.Render(false, true, "K\U{010D}", "1 000,00") == "1 000,00 K\U{010D}"
    ensures P.Render(false, true, "kr.", "1.000,00") == "1.000,00 kr."
    ensures P.Render(false, true, "kr", "1 000,00") == "1 000,00 kr"
    ensures P.Render(true, false, "\U{00A3}", "1,000.00") == "\U{00A3}1,000.00"
  {
  }

  /** A thousand units of `c` with its own layout, symbol and separators. */
  lemma ThousandFormat(c: Currency, number: string, expected: string)
    requires c.subUnitToUnit == 100 && |c.symbols| > 0
    requires number == "1" + c.groupSeparator + "000" + c.decimalSeparator + "00"
    requires P.Render(P.SymbolFirst(c.positivePattern), P.WithSpace(c.positivePattern), Symbol(c), number) == expected
    ensures Decimal(c) && MoneyToString(Money(100000, c), NewRules(), None, None) == expected
  {
    ThousandText(c, Money(100000, c));
    PositiveText(c, Money(100000, c), NewRules(), None, Symbol(c), number, expected);
  }

  /** A thousand units in the currencies of the table that the currency
      test names: the layout, the symbol and both separators all come from
      the currency. */
  lemma ShouldFormatCurrencies()
    ensures Decimal(BRL) && Decimal(CAD) && Decimal(USD) && Decimal(EUR)
    ensures Decimal(CZK) && Decimal(DKK) && Decimal(SEK) && Decimal(GBP)
    ensures MoneyToString(Money(100000, BRL), NewRules(), None, None) == "R$1.000,00"
    ensures MoneyToString(Money(100000, CAD), NewRules(), None, None) == "$1,000.00"
    ensures MoneyToString(Money(100000, USD), NewRules(), None, None) == "$1,000.00"
    ensures MoneyToString(Money(100000, EUR), NewRules(), None, None) == "\U{20AC}1.000,00"
    ensures MoneyToString(Money(100000, CZK), NewRules(), None, None) == "1 000,00 K\U{010D}"
    ensures MoneyToString(Money(100000, DKK), NewRules(), None, None) == "1.000,00 kr."
    ensures MoneyToString(Money(100000, SEK), NewRules(), None, None) == "1 000,00 kr"
    ensures MoneyToString(Money(100000, GBP), NewRules(), None, None) == "\U{00A3}1,000.00"
  {
    ThousandsBefore();
    ThousandsAfter();
  }

  /** The currencies among them that put the symbol first. */
  lemma ThousandsBefore()
    ensures Decimal(BRL) && Decimal(CAD) && Decimal(USD) && Decimal(EUR) && Decimal(GBP)
    ensures MoneyToString(Money(100000, BRL), NewRules(), None, None) == "R$1.000,00"
    ensures MoneyToString(Money(100000, CAD), NewRules(), None, None) == "$1,000.00"
    ensures MoneyToString(Money(100000, USD), NewRules(), None, None) == "$1,000.00"
    ensures MoneyToString(Money(100000, EUR), NewRules(), None, None) == "\U{20AC}1.000,00"
    ensures MoneyToString(Money(100000, GBP), NewRules(), None, None) == "\U{00A3}1,000.00"
  {
    ThousandNumbers();
    ThousandLayouts();
    ThousandFormat(BRL, "1.000,00", "R$1.000,00");
    ThousandFormat(CAD, "1,000.00", "$1,000.00");
    ThousandFormat(USD, "1,000.00", "$1,000.00");
    ThousandFormat(EUR, "1.000,00", "\U{20AC}1.000,00");
    ThousandFormat(GBP, "1,000.00", "\U{00A3}1,000.00");
  }

  /** The currencies among them that put the symbol last. */
  lemma ThousandsAfter()
    ensures Decimal(CZK) && Decimal(DKK) && Decimal(SEK)
    ensures MoneyToString(Money(100000, CZK), NewRules(), None, None) == "1 000,00 K\U{010D}"
    ensures MoneyToString(Money(100000, DKK), NewRules(), None, None) == "1.000,00 kr."
    ensures MoneyToString(Money(100000, SEK), NewRules(), None, None) == "1 000,00 kr"
  {
    ThousandNumbers();
    ThousandLayouts();
    ThousandFormat(CZK, "1 000,00", "1 000,00 K\U{010D}");
    ThousandFormat(DKK, "1.000,00", "1.000,00 kr.");
    ThousandFormat(SEK, "1 000,00", "1 000,00 kr");
  }

  lemma LargeNumbers()
    ensures "1" + "," + "000" + "," + "000" + "," + "000" == "1,000,000,000"
    ensures "1,000,000,000" + "." + "12" == "1,000,000,000.12"
    ensures "1" + "." + "234" + "." + "567" == "1.234.567"
    ensures "1.234.567" + "," + "12" == "1.234.567,12"
    ensures "250" + "," + "000" + "." + "00" == "250,000.00"
    ensures "250" + " " + "000" + "," + "00" == "250 000,00"
  {
  }

  lemma LargeLayouts()
    ensures P.Render(true, false, "$", "1,000,000,000") == "$1,000,000,000"
    ensures P.Render(true, false, "$", "1,000,000,000.12") == "$1,000,000,000.12"
    ensures P.Render(true, false, "\U{20AC}", "1.234.567") == "\U{20AC}1.234.567"
    ensures P.Render(true, false, "\U{20AC}", "1.234.567,12") == "\U{20AC}1.234.567,12"
    ensures P.Render(true, false, "$", "250,000.00") == "$250,000.00"
    ensures P.Render(false, true, "kr", "250 000,00") == "250 000,00 kr"
  {
  }

  /** A billion dollars and twelve cents is grouped at every thousand, with
      and without its cents. */
  lemma ShouldInsertCommasIfAmountIsSufficientlyLarge()
    ensures Decimal(USD)
    ensures MoneyToString(Money(100000000012, USD), NewRules(noCents := true), None, None) == "$1,000,000,000"
    ensures MoneyToString(Money(100000000012, USD), NewRules(), None, None) == "$1,000,000,000.12"
  {
    BillionDollarsWithoutCents();
    BillionDollarsWithCents();
  }

  lemma DollarBillionNumber(noCents: bool, number: string)
    requires number == if noCents then "1,000,000,000" else "1,000,000,000.12"
    ensures Decimal(USD) && FormatNumber(USD, Money(100000000012, USD), noCents) == number
  {
    LargeNumbers();
    assert USD.groupSeparator == "," && USD.decimalSeparator == ".";
    BillionText(USD, Money(100000000012, USD), noCents);
  }

  lemma BillionDollarsWithoutCents()
    ensures Decimal(USD)
    ensures MoneyToString(Money(100000000012, USD), NewRules(noCents := true), None, None) == "$1,000,000,000"
  {
    var m := Money(100000000012, USD);
    DollarBillionNumber(true, "1,000,000,000");
    LargeLayouts();
    PositiveText(USD, m, NewRules(noCents := true), None, "$", "1,000,000,000", "$1,000,000,000");
  }

  lemma BillionDollarsWithCents()
    ensures Decimal(USD)
    ensures MoneyToString(Money(100000000012, USD), NewRules(), None, None) == "$1,000,000,000.12"
  {
    var m := Money(100000000012, USD);
    DollarBillionNumber(false, "1,000,000,000.12");
    LargeLayouts();
    PositiveText(USD, m, NewRules(), None, "$", "1,000,000,000.12", "$1,000,000,000.12");
  }

  /** A quarter of a million units of `c` in its own layout. */
  lemma QuarterMillionFormat(c: Currency, number: string, expected: string)
    requires c.subUnitToUnit == 100 && |c.symbols| > 0
    requires number == "250" + c.groupSeparator + "000" + c.decimalSeparator + "00"
    requires P.Render(P.SymbolFirst(c.positivePattern), P.WithSpace(c.positivePattern), Symbol(c), number) == expected
    ensures Decimal(c) && MoneyToString(Money(25000000, c), NewRules(), None, None) == expected
  {
    QuarterMillionText(c, Money(25000000, c));
    PositiveText(c, Money(25000000, c), NewRules(), None, Symbol(c), number, expected);
  }

  /** Over a million units of `c` in its own layout, with or without cents. */
  lemma MillionsFormat(c: Currency, noCents: bool, number: string, expected: string)
    requires c.subUnitToUnit == 100 && |c.symbols| > 0
    requires var whole := "1" + c.groupSeparator + "234" + c.groupSeparator + "567";
      number == if noCents then whole else whole + c.decimalSeparator + "12"
    requires P.Render(P.SymbolFirst(c.positivePattern), P.WithSpace(c.positivePattern), Symbol(c), number) == expected
    ensures Decimal(c) && MoneyToString(Money(123456712, c), NewRules(noCents := noCents), None, None) == expected
  {
    MillionsText(c, Money(123456712, c), noCents);
    PositiveText(c, Money(123456712, c), NewRules(noCents := noCents), None, Symbol(c), number, expected);
  }

  /** A quarter of a million units, grouped with ',' for the dollar and
      with ' ' for the krona. */
  lemma QuarterMillionFormats()
    ensures Decimal(USD) && Decimal(SEK)
    ensures MoneyToString(Money(25000000, USD), NewRules(), None, None) == "$250,000.00"
    ensures MoneyToString(Money(25000000, SEK), NewRules(), None, None) == "250 000,00 kr"
  {
    LargeNumbers();
    LargeLayouts();
    QuarterMillionFormat(USD, "250,000.00", "$250,000.00");
    QuarterMillionFormat(SEK, "250 000,00", "250 000,00 kr");
  }

  /** Over a million euros, grouped with '.', with and without the cents. */
  lemma MillionsFormats()
    ensures Decimal(EUR)
    ensures MoneyToString(Money(123456712, EUR), NewRules(), None, None) == "\U{20AC}1.234.567,12"
    ensures MoneyToString(Money(123456712, EUR), NewRules(noCents := true), None, None) == "\U{20AC}1.234.567"
  {
    LargeNumbers();
    LargeLayouts();
    MillionsFormat(EUR, false, "1.234.567,12", "\U{20AC}1.234.567,12");
    MillionsFormat(EUR, true, "1.234.567", "\U{20AC}1.234.567");
  }

  /** Each currency groups with its own separator: ',' for the dollar, ' '
      for the krona, '.' for the euro. */
  lemma ShouldUseCorrectThousandsSeparator()
    ensures Decimal(USD) && Decimal(SEK) && Decimal(EUR)
    ensures USD.decimalSeparator == "." && USD.groupSeparator == ","
    ensures SEK.decimalSeparator == "," && SEK.groupSeparator == " "
    ensures MoneyToString(Money(25000000, USD), NewRules(), None, None) == "$250,000.00"
    ensures MoneyToString(Money(25000000, SEK), NewRules(), None, None) == "250 000,00 kr"
    ensures MoneyToString(Money(123456712, EUR), NewRules(), None, None) == "\U{20AC}1.234.567,12"
    ensures MoneyToString(Money(123456712, EUR), NewRules(noCents := true), None, None) == "\U{20AC}1.234.567"
  {
    QuarterMillionFormats();
    MillionsFormats();
  }

  /** A negative amount of one unit in every one of the sixteen layouts is
      the layout rendered with the symbol and the number text; with no
      layout given, the currency's own applies. */
  lemma NegativeMatrix(c: Currency)
    requires c.subUnitToUnit == 100 && |c.symbols| > 0
    ensures Decimal(c)
    ensures MoneyToString(Money(-100, c), NewRules(), None, None) ==
      N.Render(N.LayoutOf(c.negativePattern), Symbol(c), "1" + c.decimalSeparator + "00")
    ensures forall p :: (MoneyToString(Money(-100, c), NewRules(), Some(p), None) ==
      N.Render(N.LayoutOf(p), Symbol(c), "1" + c.decimalSeparator + "00"))
  {
    var m := Money(-100, c);
    var number := "1" + c.decimalSeparator + "00";
    OneUnitText(c, m);
    NegativeText(c, m, NewRules(), None, Symbol(c), number);
    forall p
      ensures MoneyToString(m, NewRules(), Some(p), None) == N.Render(N.LayoutOf(p), Symbol(c), number)
    {
      NegativeText(c, m, NewRules(), Some(p), Symbol(c), number);
    }
  }

  lemma PoundLayoutsFromZero()
    ensures "1" + "." + "00" == "1.00"
    ensures N.Render(N.LayoutOf(N.Zero), "\U{00A3}", "1.00") == "(\U{00A3}1.00)"
    ensures N.Render(N.LayoutOf(N.One), "\U{00A3}", "1.00") == "-\U{00A3}1.00"
  {
  }

  lemma PoundLayoutsFromTwo()
    ensures N.Render(N.LayoutOf(N.Two), "\U{00A3}", "1.00") == "\U{00A3}-1.00"
    ensures N.Render(N.LayoutOf(N.Three), "\U{00A3}", "1.00") == "\U{00A3}1.00-"
  {
  }

  lemma PoundLayoutsFromFour()
    ensures N.Render(N.LayoutOf(N.Four), "\U{00A3}", "1.00") == "(1.00\U{00A3})"
    ensures N.Render(N.LayoutOf(N.Five), "\U{00A3}", "1.00") == "-1.00\U{00A3}"
  {
  }

  lemma PoundLayoutsFromSix()
    ensures N.Render(N.LayoutOf(N.Six), "\U{00A3}", "1.00") == "1.00-\U{00A3}"
    ensures N.Render(N.LayoutOf(N.Seven), "\U{00A3}", "1.00") == "1.00\U{00A3}-"
  {
  }

  lemma PoundLayoutsFromEight()
    ensures N.Render(N.LayoutOf(N.Eight), "\U{00A3}", "1.00") == "-1.00 \U{00A3}"
    ensures N.Render(N.LayoutOf(N.Nine), "\U{00A3}", "1.00") == "-\U{00A3} 1.00"
  {
  }

  lemma PoundLayoutsFromTen()
    ensures N.Render(N.LayoutOf(N.Ten), "\U{00A3}", "1.00") == "1.00 \U{00A3}-"
    ensures N.Render(N.LayoutOf(N.Eleven), "\U{00A3}", "1.00") == "\U{00A3} 1.00-"
  {
  }

  lemma PoundLayoutsFromTwelve()
    ensures N.Render(N.LayoutOf(N.Twelve), "\U{00A3}", "1.00") == "\U{00A3} -1.00"
    ensures N.Render(N.LayoutOf(N.Thirteen), "\U{00A3}", "1.00") == "1.00- \U{00A3}"
  {
  }

  lemma PoundLayoutsFromFourteen()
    ensures N.Render(N.LayoutOf(N.Fourteen), "\U{00A3}", "1.00") == "(\U{00A3} 1.00)"
    ensures N.Render(N.LayoutOf(N.Fifteen), "\U{00A3}", "1.00") == "(1.00 \U{00A3})"
  {
  }

  /** Minus one pound in its default layout and in each of the sixteen. */
  lemma ShouldHandleNegativePositioningPound()
    ensures Decimal(GBP)
    ensures MoneyToString(Money(-100, GBP), NewRules(), None, None) == "-\U{00A3}1.00"
    ensures MoneyToString(Money(-100, GBP), NewRules(), Some(N.Zero), None) == "(\U{00A3}1.00)"
    ensures MoneyToString(Money(-100, GBP), NewRules(), Some(N.One), None) == "-\U{00A3}1.00"
    ensures MoneyToString(Money(-100, GBP), NewRules(), Some(N.Two), None) == "\U{00A3}-1.00"
    ensures MoneyToString(Money(-100, GBP), NewRules(), Some(N.Three), None) == "\U{00A3}1.00-"
    ensures MoneyToString(Money(-100, GBP), NewRules(), Some(N.Four), None) == "(1.00\U{00A3})"
    ensures MoneyToString(Money(-100, GBP), NewRules(), Some(N.Five), None) == "-1.00\U{00A3}"
    ensures MoneyToString(Money(-100, GBP), NewRules(), Some(N.Six), None) == "1.00-\U{00A3}"
    ensures MoneyToString(Money(-100, GBP), NewRules(), Some(N.Seven), None) == "1.00\U{00A3}-"
    ensures MoneyToString(Money(-100, GBP), NewRules(), Some(N.Eight), None) == "-1.00 \U{00A3}"
    ensures MoneyToString(Money(-100, GBP), NewRules(), Some(N.Nine), None) == "-\U{00A3} 1.00"
    ensures MoneyToString(Money(-100, GBP), NewRules(), Some(N.Ten), None) == "1.00 \U{00A3}-"
    ensures MoneyToString(Money(-100, GBP), NewRules(), Some(N.Eleven), None) == "\U{00A3} 1.00-"
    ensures MoneyToString(Money(-100, GBP), NewRules(), Some(N.Twelve), None) == "\U{00A3} -1.00"
    ensures MoneyToString(Money(-100, GBP), NewRules(), Some(N.Thirteen), None) == "1.00- \U{00A3}"
    ensures MoneyToString(Money(-100, GBP), NewRules(), Some(N.Fourteen), None) == "(\U{00A3} 1.00)"
    ensures MoneyToString(Money(-100, GBP), NewRules(), Some(N.Fifteen), None) == "(1.00 \U{00A3})"
  {
    NegativeMatrix(GBP);
    PoundLayoutsFromZero();
    PoundLayoutsFromTwo();
    PoundLayoutsFromFour();
    PoundLayoutsFromSix();
    PoundLayoutsFromEight();
    PoundLayoutsFromTen();
    PoundLayoutsFromTwelve();
    PoundLayoutsFromFourteen();
  }

  lemma KronaLayoutsFromZero()
    ensures "1" + "," + "00" == "1,00"
    ensures N.Render(N.LayoutOf(N.Zero), "kr", "1,00") == "(kr1,00)"
    ensures N.Render(N.LayoutOf(N.One), "kr", "1,00") == "-kr1,00"
  {
  }

  lemma KronaLayoutsFromTwo()
    ensures N.Render(N.LayoutOf(N.Two), "kr", "1,00") == "kr-1,00"
    ensures N.Render(N.LayoutOf(N.Three), "kr", "1,00") == "kr1,00-"
  {
  }

  lemma KronaLayoutsFromFour()
    ensures N.Render(N.LayoutOf(N.Four), "kr", "1,00") == "(1,00kr)"
    ensures N.Render(N.LayoutOf(N.Five), "kr", "1,00") == "-1,00kr"
  {
  }

  lemma KronaLayoutsFromSix()
    ensures N.Render(N.LayoutOf(N.Six), "kr", "1,00") == "1,00-kr"
    ensures N.Render(N.LayoutOf(N.Seven), "kr", "1,00") == "1,00kr-"
  {
  }

  lemma KronaLayoutsFromEight()
    ensures N.Render(N.LayoutOf(N.Eight), "kr", "1,00") == "-1,00 kr"
    ensures N.Render(N.LayoutOf(N.Nine), "kr", "1,00") == "-kr 1,00"
  {
  }

  lemma KronaLayoutsFromTen()
    ensures N.Render(N.LayoutOf(N.Ten), "kr", "1,00") == "1,00 kr-"
    ensures N.Render(N.LayoutOf(N.Eleven), "kr", "1,00") == "kr 1,00-"
  {
  }

  lemma KronaLayoutsFromTwelve()
    ensures N.Render(N.LayoutOf(N.Twelve), "kr", "1,00") == "kr -1,00"
    ensures N.Render(N.LayoutOf(N.Thirteen), "kr", "1,00") == "1,00- kr"
  {
  }

  lemma KronaLayoutsFromFourteen()
    ensures N.Render(N.LayoutOf(N.Fourteen), "kr", "1,00") == "(kr 1,00)"
    ensures N.Render(N.LayoutOf(N.Fifteen), "kr", "1,00") == "(1,00 kr)"
  {
  }

  /** Minus one krona in its default layout and in each of the sixteen. */
  lemma ShouldHandleNegativePositioningKrona()
    ensures Decimal(SEK)
    ensures MoneyToString(Money(-100, SEK), NewRules(), None, None) == "-1,00 kr"
    ensures MoneyToString(Money(-100, SEK), NewRules(), Some(N.Zero), None) == "(kr1,00)"
    ensures MoneyToString(Money(-100, SEK), NewRules(), Some(N.One), None) == "-kr1,00"
    ensures MoneyToString(Money(-100, SEK), NewRules(), Some(N.Two), None) == "kr-1,00"
    ensures MoneyToString(Money(-100, SEK), NewRules(), Some(N.Three), None) == "kr1,00-"
    ensures MoneyToString(Money(-100, SEK), NewRules(), Some(N.Four), None) == "(1,00kr)"
    ensures MoneyToString(Money(-100, SEK), NewRules(), Some(N.Five), None) == "-1,00kr"
    ensures MoneyToString(Money(-100, SEK), NewRules(), Some(N.Six), None) == "1,00-kr"
    ensures MoneyToString(Money(-100, SEK), NewRules(), Some(N.Seven), None) == "1,00kr-"
    ensures MoneyToString(Money(-100, SEK), NewRules(), Some(N.Eight), None) == "-1,00 kr"
    ensures MoneyToString(Money(-100, SEK), NewRules(), Some(N.Nine), None) == "-kr 1,00"
    ensures MoneyToString(Money(-100, SEK), NewRules(), Some(N.Ten), None) == "1,00 kr-"
    ensures MoneyToString(Money(-100, SEK), NewRules(), Some(N.Eleven), None) == "kr 1,00-"
    ensures MoneyToString(Money(-100, SEK), NewRules(), Some(N.Twelve), None) == "kr -1,00"
    ensures MoneyToString(Money(-100, SEK), NewRules(), Some(N.Thirteen), None) == "1,00- kr"
    ensures MoneyToString(Money(-100, SEK), NewRules(), Some(N.Fourteen), None) == "(kr 1,00)"
    ensures MoneyToString(Money(-100, SEK), NewRules(), Some(N.Fifteen), None) == "(1,00 kr)"
  {
    NegativeMatrix(SEK);
    KronaLayoutsFromZero();
    KronaLayoutsFromTwo();
    KronaLayoutsFromFour();
    KronaLayoutsFromSix();
    KronaLayoutsFromEight();
    KronaLayoutsFromTen();
    KronaLayoutsFromTwelve();
    KronaLayoutsFromFourteen();
  }

  /** One unit of `c` in the positive layout `pos` given as an option. */
  lemma PositionedFormat(c: Currency, pos: P.PositivePosition, number: string, expected: string)
    requires c.subUnitToUnit == 100 && |c.symbols| > 0
    requires number == "1" + c.decimalSeparator + "00"
    requires P.Render(P.SymbolFirst(pos), P.WithSpace(pos), Symbol(c), number) == expected
    ensures Decimal(c) && MoneyToString(Money(100, c), NewRules(), None, Some(pos)) == expected
  {
    OneUnitText(c, Money(100, c));
    PositiveText(c, Money(100, c), NewRules(), Some(pos), Symbol(c), number, expected);
  }

  lemma PositionedLayouts()
    ensures "1" + "." + "00" == "1.00" && "1" + "," + "00" == "1,00"
    ensures P.Render(false, false, "$", "1.00") == "1.00$"
    ensures P.Render(false, true, "$", "1.00") == "1.00 $"
    ensures P.Render(true, false, "kr", "1,00") == "kr1,00"
    ensures P.Render(true, true, "kr", "1,00") == "kr 1,00"
  {
  }

  /** One dollar with the symbol after the number, and one krona with the
      symbol before it, with and without the space. */
  lemma ShouldHandlePositivePositioning()
    ensures Decimal(USD) && Decimal(SEK)
    ensures MoneyToString(Money(100, USD), NewRules(), None, Some(P.After)) == "1.00$"
    ensures MoneyToString(Money(100, USD), NewRules(), None, Some(P.AfterWithSpace)) == "1.00 $"
    ensures MoneyToString(Money(100, SEK), NewRules(), None, Some(P.Before)) == "kr1,00"
    ensures MoneyToString(Money(100, SEK), NewRules(), None, Some(P.BeforeWithSpace)) == "kr 1,00"
  {
    DollarPositions();
    KronaPositions();
  }

  lemma DollarPositions()
    ensures Decimal(USD)
    ensures MoneyToString(Money(100, USD), NewRules(), None, Some(P.After)) == "1.00$"
    ensures MoneyToString(Money(100, USD), NewRules(), None, Some(P.AfterWithSpace)) == "1.00 $"
  {
    DollarAfter();
    DollarAfterWithSpace();
  }

  lemma DollarAfter()
    ensures Decimal(USD) && MoneyToString(Money(100, USD), NewRules(), None, Some(P.After)) == "1.00$"
  {
    PositionedLayouts();
    PositionedFormat(USD, P.After, "1.00", "1.00$");
  }

  lemma DollarAfterWithSpace()
    ensures Decimal(USD) && MoneyToString(Money(100, USD), NewRules(), None, Some(P.AfterWithSpace)) == "1.00 $"
  {
    PositionedLayouts();
    PositionedFormat(USD, P.AfterWithSpace, "1.00", "1.00 $");
  }

  lemma KronaPositions()
    ensures Decimal(SEK)
    ensures MoneyToString(Money(100, SEK), NewRules(), None, Some(P.Before)) == "kr1,00"
    ensures MoneyToString(Money(100, SEK), NewRules(), None, Some(P.BeforeWithSpace)) == "kr 1,00"
  {
    PositionedLayouts();
    PositionedFormat(SEK, P.Before, "1,00", "kr1,00");
    PositionedFormat(SEK, P.BeforeWithSpace, "1,00", "kr 1,00");
  }

  /** 1999.98 units of `c` asked to disambiguate: with the symbol, the
      disambiguation symbol in the currency's layout; without, the bare number. */
  lemma DisambiguatedFormat(c: Currency, number: string, expected: string)
    requires c.subUnitToUnit == 100 && |c.symbols| > 0 && c.disambiguateSymbol.Some?
    requires number == "1" + c.groupSeparator + "999" + c.decimalSeparator + "98"
    requires P.Render(P.SymbolFirst(c.positivePattern), P.WithSpace(c.positivePattern),
                      c.disambiguateSymbol.value, number) == expected
    ensures Decimal(c)
    ensures MoneyToString(Money(199998, c), NewRules(disambiguate := true), None, None) == expected
    ensures MoneyToString(Money(199998, c), NewRules(disambiguate := true, showSymbol := false), None, None) == number
  {
    NearlyTwoThousandText(c, Money(199998, c));
    PositiveText(c, Money(199998, c), NewRules(disambiguate := true), None, c.disambiguateSymbol.value, number, expected);
    BareText(c, Money(199998, c), NewRules(disambiguate := true, showSymbol := false), number);
  }

  lemma DisambiguatedLayouts()
    ensures "1" + "," + "999" + "." + "98" == "1,999.98"
    ensures "1" + "." + "999" + "," + "98" == "1.999,98"
    ensures "1" + " " + "999" + "," + "98" == "1 999,98"
    ensures P.Render(true, false, "C$", "1,999.98") == "C$1,999.98"
    ensures P.Render(false, true, "DKK", "1.999,98") == "1.999,98 DKK"
    ensures P.Render(false, true, "SEK", "1 999,98") == "1 999,98 SEK"
    ensures P.Render(true, false, "US$", "1,999.98") == "US$1,999.98"
  {
  }

  /** Asked to disambiguate, a currency that has a disambiguation symbol
      shows it in place of its main symbol; without the symbol the number
      text is bare. */
  lemma ShouldHandleDisambiguateSymbols()
    ensures Decimal(CAD) && Decimal(DKK) && Decimal(SEK) && Decimal(USD)
    ensures MoneyToString(Money(199998, CAD), NewRules(disambiguate := true), None, None) == "C$1,999.98"
    ensures MoneyToString(Money(199998, CAD), NewRules(disambiguate := true, showSymbol := false), None, None) == "1,999.98"
    ensures MoneyToString(Money(199998, DKK), NewRules(disambiguate := true), None, None) == "1.999,98 DKK"
    ensures MoneyToString(Money(199998, DKK), NewRules(disambiguate := true, showSymbol := false), None, None) == "1.999,98"
    ensures MoneyToString(Money(199998, SEK), NewRules(disambiguate := true), None, None) == "1 999,98 SEK"
    ensures MoneyToString(Money(199998, SEK), NewRules(disambiguate := true, showSymbol := false), None, None) == "1 999,98"
    ensures MoneyToString(Money(199998, USD), NewRules(disambiguate := true), None, None) == "US$1,999.98"
    ensures MoneyToString(Money(199998, USD), NewRules(disambiguate := true, showSymbol := false), None, None) == "1,999.98"
  {
    DisambiguatedLayouts();
    DisambiguatedFormat(CAD, "1,999.98", "C$1,999.98");
    DisambiguatedFormat(DKK, "1.999,98", "1.999,98 DKK");
    DisambiguatedFormat(SEK, "1 999,98", "1 999,98 SEK");
    DisambiguatedFormat(USD, "1,999.98", "US$1,999.98");
  }

  /** Ten dollars plus ninety cents, as an amount or as raw minor units,
      is "$10.90"; plus zero it is "$10.00". */
  lemma ArithmeticFormats()
    ensures Decimal(USD)
    ensures Add(Money(1000, USD), Money(90, USD)) == Ok(Money(1090, USD))
    ensures AddUnits(Money(1000, USD), 90) == Money(1090, USD)
    ensures Add(Money(1000, USD), Money(0, USD)) == Ok(Money(1000, USD))
    ensures AddUnits(Money(1000, USD), 0) == Money(1000, USD)
    ensures MoneyToString(Money(1090, USD), NewRules(), None, None) == "$10.90"
    ensures MoneyToString(Money(1000, USD), NewRules(), None, None) == "$10.00"
  {
    Cents(USD);
    TenDollarSplits();
    NumberText(USD, Money(1090, USD), false, "10", "9");
    NumberText(USD, Money(1000, USD), false, "10", "");
    TenDollarTexts();
    PositiveText(USD, Money(1090, USD), NewRules(), None, "$", "10.90", "$10.90");
    PositiveText(USD, Money(1000, USD), NewRules(), None, "$", "10.00", "$10.00");
  }

  lemma TenDollarSplits()
    ensures SplitUnits(1090, 100, 2) == Parts("9", "10")
    ensures SplitUnits(1000, 100, 2) == Parts("", "10")
  {
    assert Pow10(2) == 100;
    NumeralTen();
    FractionNone();
    FractionNinety();
  }

  lemma NumeralTen()
    ensures Numeral(10) == "10"
  {
    NumeralStep(10, 1, 0);
  }

  lemma FractionNinety()
    ensures FractionDigits(90, 2) == "9"
  {
    assert Pow10(2) == 100;
    assert Padded(90, 2) == "90";
    assert StripTrailingZeros("9") == "9";
  }

  lemma TenDollarTexts()
    ensures Group("10", ",") + "." + PadRight("9", 2, '0') == "10.90"
    ensures Group("10", ",") + "." + PadRight("", 2, '0') == "10.00"
    ensures P.Render(true, false, "$", "10.90") == "$10.90"
    ensures P.Render(true, false, "$", "10.00") == "$10.00"
  {
  }

  lemma HundredthsOfExamples()
    ensures Hundredths(1234, 1000) == 123
    ensures Hundredths(12, 1) == 1200
  {
  }

  lemma PaddedOfExamples()
    ensures Padded(23, 2) == "23" && Padded(0, 2) == "00"
    ensures Padded(234, 3) == "234" && Padded(0, 0) == ""
  {
    assert Pow10(2) == 100 && Pow10(3) == 1000;
  }

  /** The split as written of 1234 fils: the unit value 1.234 printed as "1.23". */
  lemma AsWrittenThreeDecimals()
    ensures ExtractPartsAsWritten(BHD, Money(1234, BHD)) == Parts("23", "1")
  {
    HundredthsOfExamples();
    PaddedOfExamples();
    NumeralsSmall();
    assert Pow10(2) == 100;
    assert 123 / 100 == 1 && 123 % 100 == 23;
  }

  /** The exact split of 1234 fils: one dinar and 234 fils. */
  lemma ExactThreeDecimals()
    ensures Decimal(BHD) && Exponent(BHD) == 3
    ensures ExtractParts(BHD, Money(1234, BHD)) == Parts("234", "1")
  {
    KnownExponents();
    assert ExtractParts(BHD, Money(1234, BHD)) == SplitUnits(1234, 1000, 3);
    SplitOfDinars();
  }

  lemma SplitOfDinars()
    ensures SplitUnits(1234, 1000, 3) == Parts("234", "1")
  {
    assert Pow10(3) == 1000;
    assert 1234 / 1000 == 1 && 1234 % 1000 == 234;
    PaddedOfExamples();
    NumeralsSmall();
    assert StripTrailingZeros("234") == "234";
    assert FractionDigits(234, 3) == "234";
  }

  /** The split as written prints the unit value with two decimals, so a
      three-decimal currency loses its third digit: 1234 fils of the
      Bahraini dinar become "1" and "23", padded to "230", where the exact
      split gives "1" and "234". */
  lemma ExtractPartsDropsThirdDecimal()
    ensures Decimal(BHD) && Exponent(BHD) == 3
    ensures ExtractPartsAsWritten(BHD, Money(1234, BHD)) == Parts("23", "1")
    ensures FormatDecimalPart(BHD, "23") == "230"
    ensures ExtractParts(BHD, Money(1234, BHD)) == Parts("234", "1")
    ensures FormatDecimalPart(BHD, "234") == "234"
  {
    AsWrittenThreeDecimals();
    ExactThreeDecimals();
    DinarPads();
  }

  lemma DinarPads()
    ensures BHD.subUnitToUnit >= 1
    ensures FormatDecimalPart(BHD, "23") == "230" && FormatDecimalPart(BHD, "234") == "234"
  {
    KnownExponents();
  }

  lemma NumeralTwelve()
    ensures Numeral(12) == "12"
  {
    NumeralStep(12, 1, 2);
  }

  /** The split as written of twelve francs: "12.00". */
  lemma AsWrittenNoDecimals()
    ensures ExtractPartsAsWritten(BIF, Money(12, BIF)) == Parts("00", "12")
  {
    HundredthsOfExamples();
    PaddedOfExamples();
    NumeralTwelve();
    assert 1200 / 100 == 12 && 1200 % 100 == 0;
  }

  /** The exact number text of twelve francs: no decimal mark at all. */
  lemma ExactNoDecimals()
    ensures Decimal(BIF) && Exponent(BIF) == 0
    ensures FormatNumber(BIF, Money(12, BIF), false) == "12"
  {
    KnownExponents();
    NumeralTwelve();
    PaddedOfExamples();
    assert 12 / 1 == 12 && 12 % 1 == 0;
    assert StripTrailingZeros("") == "";
    assert SplitUnits(12, 1, 0) == Parts("", "12");
    assert Group("12", ",") == "12";
  }

  /** The split as written gives a zero-decimal currency two decimals that
      padding does not remove: twelve Burundian francs keep "00" after the
      mark, where the exact number text is "12". */
  lemma ExtractPartsGivesCentsToWholeCurrency()
    ensures Decimal(BIF) && Exponent(BIF) == 0
    ensures ExtractPartsAsWritten(BIF, Money(12, BIF)).decimalPart == "00"
    ensures FormatDecimalPart(BIF, "00") == "00"
    ensures FormatNumber(BIF, Money(12, BIF), false) == "12"
  {
    AsWrittenNoDecimals();
    ExactNoDecimals();
  }
}
