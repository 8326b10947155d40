/** The formatter: an amount's minor units split into a whole and a fraction
    part, the fraction padded to the currency's exponent, the whole part
    grouped in threes, and the result placed in the currency's positive or
    negative layout with its symbol. */
module Formatting {
  import opened Results
  import opened Text
  import opened Digits
  import N = NegativePositions
  import P = PositivePositions
  import opened Currencies
  import opened Monies
  import opened FormattingRules

  function Abs(x: int): nat
  {
    if x < 0 then -x else x
  }

  /** The two texts an amount is split into: the digits after the decimal
      mark and the digits before it. */
  datatype Parts = Parts(decimalPart: string, numberPart: string)

  /** The formatter's currencies: a ratio that is a power of ten, so that a
      unit has an exact decimal expansion of `Exponent` digits. */
  predicate Decimal(c: Currency)
  {
    c.subUnitToUnit >= 1 && Pow10(Exponent(c)) == c.subUnitToUnit
  }

  /** Splits the amount's magnitude in units: the digits of the whole units,
      and the digits of the exact decimal fraction without trailing zeros.
      Padded back to `Exponent` digits, the fraction is below one unit, and
      the two parts together make up the magnitude. */
  function ExtractParts(c: Currency, m: Money): (p: Parts)
    requires Decimal(c)
    ensures AllDigits(p.numberPart) && (|p.numberPart| > 1 ==> p.numberPart[0] != '0')
    ensures AllDigits(p.decimalPart) && |p.decimalPart| <= Exponent(c)
    ensures |p.decimalPart| > 0 ==> p.decimalPart[|p.decimalPart| - 1] != '0'
    ensures var fraction := Value(PadRight(p.decimalPart, Exponent(c), '0'));
      fraction < c.subUnitToUnit && Value(p.numberPart) * c.subUnitToUnit + fraction == Abs(m.fractional)
  {
    SplitUnits(Abs(m.fractional), c.subUnitToUnit, Exponent(c))
  }

  /** `ExtractParts` on a magnitude `a` and a ratio `d` of `e` decimal digits. */
  function SplitUnits(a: nat, d: nat, e: nat): (p: Parts)
    requires d >= 1 && Pow10(e) == d
    ensures AllDigits(p.numberPart) && (|p.numberPart| > 1 ==> p.numberPart[0] != '0')
    ensures AllDigits(p.decimalPart) && |p.decimalPart| <= e
    ensures |p.decimalPart| > 0 ==> p.decimalPart[|p.decimalPart| - 1] != '0'
    ensures var fraction := Value(PadRight(p.decimalPart, e, '0'));
      fraction < d && Value(p.numberPart) * d + fraction == a
  {
    var q, r := a / d, a % d;
    Division(a, d, q, r);
    var whole, fraction := Numeral(q), FractionDigits(r, e);
    Parts(fraction, whole)
  }

  /** The `e` digits of a fraction `r / 10^e`, trailing zeros dropped. */
  function FractionDigits(r: nat, e: nat): (s: string)
    requires r < Pow10(e)
    ensures AllDigits(s) && |s| <= e
    ensures |s| > 0 ==> s[|s| - 1] != '0'
    ensures Value(PadRight(s, e, '0')) == r
  {
    var digits := Padded(r, e);
    PadRestoresStrip(digits);
    StripTrailingZeros(digits)
  }

  lemma Division(a: nat, d: nat, q: int, r: int)
    requires d >= 1 && q == a / d && r == a % d
    ensures 0 <= q && 0 <= r < d && q * d + r == a
  {
  }

  /** `|a| / d` rounded to a whole number of hundredths, a midpoint away
      from zero: the nearest `v` with `v / 100` within half a hundredth of
      `a / d`, the upper one at a tie. */
  function Hundredths(a: nat, d: nat): (v: nat)
    requires d >= 1
    ensures (2 * d) * v <= 200 * a + d < (2 * d) * v + 2 * d
  {
    var v := (200 * a + d) / (2 * d);
    Division(200 * a + d, 2 * d, v, (200 * a + d) % (2 * d));
    v
  }

  /** The split as the formatter writes it: the quotient printed with the
      fixed-point format of the en-US culture, which always has two decimals
      rounded away from zero and a leading '-' for an amount that stays
      below zero after rounding, then cut at the '.'. */
  function ExtractPartsAsWritten(c: Currency, m: Money): (p: Parts)
    requires c.subUnitToUnit >= 1
    ensures |p.decimalPart| == 2 && AllDigits(p.decimalPart)
    ensures var v := Hundredths(Abs(m.fractional), c.subUnitToUnit);
      var signed := m.fractional < 0 && v > 0;
      |p.numberPart| >= 1 && (p.numberPart[0] == '-' <==> signed) &&
      var digits := if signed then p.numberPart[1..] else p.numberPart;
      AllDigits(digits) && Value(digits) * 100 + Value(p.decimalPart) == v
  {
    var v := Hundredths(Abs(m.fractional), c.subUnitToUnit);
    var q, r := v / 100, v % 100;
    Division(v, 100, q, r);
    assert Pow10(2) == 100;
    var whole, fraction := Numeral(q), Padded(r, 2);
    assert IsDigit(whole[0]);
    var signed := m.fractional < 0 && v > 0;
    var number := if signed then "-" + whole else whole;
    assert signed ==> number[1..] == whole;
    Parts(fraction, number)
  }

  /** Pads the fraction digits with zeros at the end up to `Exponent` digits;
      a longer text is left as it is. */
  function FormatDecimalPart(c: Currency, value: string): (r: string)
    requires c.subUnitToUnit >= 1
    ensures |r| == if |value| >= Exponent(c) then |value| else Exponent(c)
    ensures r[..|value|] == value
    ensures forall i :: |value| <= i < |r| ==> r[i] == '0'
  {
    PadRight(value, Exponent(c), '0')
  }

  /** `d` in groups of three from the right, `sep` between the groups. */
  function Group(d: string, sep: string): (r: string)
    ensures |d| <= 3 ==> r == d
    decreases |d|
  {
    if |d| <= 3 then d else Group(d[..|d| - 3], sep) + sep + d[|d| - 3..]
  }

  /** Deleting the separators restores the digits. */
  lemma {:induction false} GroupWithout(d: string, sep: char)
    requires sep !in d
    ensures Without(Group(d, [sep]), sep) == d
    decreases |d|
  {
    if |d| > 3 {
      var init := d[..|d| - 3];
      var last := d[|d| - 3..];
      assert init + last == d;
      assert sep !in init && sep !in last;
      GroupWithout(init, sep);
      var g := Group(init, [sep]);
      assert Group(d, [sep]) == g + [sep] + last;
      assert Without([sep], sep) == [];
      WithoutAppend(g, [sep], sep);
      assert Without(g + [sep], sep) == init;
      WithoutAppend(g + [sep], last, sep);
      WithoutAbsent(last, sep);
      assert Without(g + [sep] + last, sep) == init + last;
    } else {
      assert Group(d, [sep]) == d;
      WithoutAbsent(d, sep);
    }
  }

  /** A separator stands at every boundary between groups of three: for a
      non-empty text of n digits there are (n - 1) / 3 of them. */
  lemma {:induction false} GroupCount(d: string, sep: char)
    requires sep !in d && |d| >= 1
    ensures Count(Group(d, [sep]), sep) == (|d| - 1) / 3
    decreases |d|
  {
    if |d| > 3 {
      var init := d[..|d| - 3];
      var last := d[|d| - 3..];
      assert sep !in init && sep !in last;
      GroupCount(init, sep);
      assert Group(d, [sep]) == Group(init, [sep]) + [sep] + last;
      CountAppend(Group(init, [sep]), [sep], sep);
      CountAppend(Group(init, [sep]) + [sep], last, sep);
      assert Count(last, sep) == 0;
    } else {
      assert Count(d, sep) == 0;
    }
  }

  /** The whole part grouped with the currency's group separator. */
  function FormatNumberPart(c: Currency, value: string): (r: string)
    ensures c.groupSeparator == [] ==> r == value
  {
    GroupEmptySeparator(value);
    Group(value, c.groupSeparator)
  }

  lemma {:induction false} GroupEmptySeparator(d: string)
    ensures Group(d, []) == d
    decreases |d|
  {
    if |d| > 3 {
      GroupEmptySeparator(d[..|d| - 3]);
      assert d[..|d| - 3] + d[|d| - 3..] == d;
    }
  }

  /** The number text: the grouped whole part, then the decimal mark and the
      padded fraction, unless cents are dropped or the currency has none. */
  function FormatNumber(c: Currency, m: Money, noCents: bool): string
    requires Decimal(c)
  {
    var parts := ExtractParts(c, m);
    var decimalPart := FormatDecimalPart(c, parts.decimalPart);
    var numberPart := FormatNumberPart(c, parts.numberPart);
    if noCents || Exponent(c) == 0 then numberPart else numberPart + c.decimalSeparator + decimalPart
  }

  /** Reading the number text back: with a one-character group separator
      that is neither a digit nor part of the decimal mark, deleting it
      leaves the whole units, then the decimal mark and the fraction padded
      to `Exponent` digits unless cents are dropped or there are none. */
  lemma FormatNumberDenotes(c: Currency, m: Money, noCents: bool)
    requires Decimal(c)
    requires |c.groupSeparator| == 1 && !IsDigit(c.groupSeparator[0]) && c.groupSeparator[0] !in c.decimalSeparator
    ensures var parts := ExtractParts(c, m);
      Without(FormatNumber(c, m, noCents), c.groupSeparator[0]) ==
        if noCents || Exponent(c) == 0 then parts.numberPart
        else parts.numberPart + c.decimalSeparator + FormatDecimalPart(c, parts.decimalPart)
  {
    var g := c.groupSeparator[0];
    var parts := ExtractParts(c, m);
    var fraction := FormatDecimalPart(c, parts.decimalPart);
    NonDigitAbsent(parts.numberPart, g);
    NonDigitAbsent(fraction, g);
    assert [g] == c.groupSeparator;
    GroupWithout(parts.numberPart, g);
    JoinWithout(FormatNumberPart(c, parts.numberPart), c.decimalSeparator, fraction, g);
  }

  /** Deleting a character absent from the mark and the fraction affects only the whole part. */
  lemma JoinWithout(whole: string, mark: string, fraction: string, g: char)
    requires g !in mark && g !in fraction
    ensures Without(whole + mark + fraction, g) == Without(whole, g) + mark + fraction
  {
    WithoutAppend(whole, mark, g);
    WithoutAppend(whole + mark, fraction, g);
    WithoutAbsent(mark, g);
    WithoutAbsent(fraction, g);
  }

  /** The symbol shown: nothing when the symbol is off, the currency's
      disambiguation symbol when asked for and the currency has one, and
      otherwise its main symbol. */
  function ResolveSymbol(c: Currency, rules: Rules): (s: string)
    requires |c.symbols| > 0
    ensures !rules.showSymbol ==> s == ""
    ensures rules.showSymbol && rules.disambiguate && c.disambiguateSymbol.Some? ==> s == c.disambiguateSymbol.value
    ensures rules.showSymbol && !(rules.disambiguate && c.disambiguateSymbol.Some?) ==> s == Symbol(c)
  {
    if !rules.showSymbol then ""
    else if rules.disambiguate && c.disambiguateSymbol.Some? then c.disambiguateSymbol.value
    else Symbol(c)
  }

  function NegativeLayout(c: Currency, negative: Option<N.NegativePosition>): N.NegativePosition
  {
    if negative.Some? then negative.value else c.negativePattern
  }

  function PositiveLayout(c: Currency, positive: Option<P.PositivePosition>): P.PositivePosition
  {
    if positive.Some? then positive.value else c.positivePattern
  }

  /** The layout pattern for the amount: the negative one for an amount
      below zero and the positive one otherwise, each taken from the
      arguments when given and from the currency if not. */
  function Pattern(c: Currency, m: Money,
                   negative: Option<N.NegativePosition>, positive: Option<P.PositivePosition>): string
  {
    if m.fractional < 0 then N.Description(NegativeLayout(c, negative))
    else P.Description(PositiveLayout(c, positive))
  }

  /** Fills a layout pattern. Without a symbol the pattern's space goes too. */
  function Place(pattern: string, showSymbol: bool, symbol: string, number: string): string
  {
    if showSymbol then Substitute(pattern, symbol, number)
    else Substitute(Without(pattern, ' '), "", number)
  }

  /** The formatted amount: the number text and the symbol placed in the layout. */
  function Format(c: Currency, m: Money, rules: Rules,
                  negative: Option<N.NegativePosition>, positive: Option<P.PositivePosition>): string
    requires Decimal(c) && |c.symbols| > 0
  {
    Place(Pattern(c, m, negative, positive), rules.showSymbol, ResolveSymbol(c, rules), FormatNumber(c, m, rules.noCents))
  }

  /** A positive layout without its symbol is the bare number. */
  lemma PlacePositiveWithoutSymbol(p: P.PositivePosition, symbol: string, number: string)
    ensures Place(P.Description(p), false, symbol, number) == number
  {
    P.SpaceDeleted(p);
    P.SubstitutedDescription(P.Unspaced(p), "", number);
    assert "" + "" + number == number;
    assert number + "" + "" == number;
  }

  /** A negative layout without its symbol keeps its sign or parentheses. */
  lemma PlaceNegativeWithoutSymbol(p: N.NegativePosition, symbol: string, number: string)
    ensures Place(N.Description(p), false, symbol, number) == N.Render(N.LayoutOf(p).(spaced := false), "", number)
  {
    if N.Spaced(p) {
      N.SpaceDeleted(p);
      N.SubstitutedDescription(N.Unspaced(p), "", number);
    } else {
      N.SpaceCount(p);
      WithoutAbsent(N.Description(p), ' ');
      N.SubstitutedDescription(p, "", number);
    }
  }

  /** A negative amount with its symbol is the negative layout filled with
      the symbol and the number text. */
  lemma FormatNegative(c: Currency, m: Money, rules: Rules,
                       negative: Option<N.NegativePosition>, positive: Option<P.PositivePosition>)
    requires Decimal(c) && |c.symbols| > 0
    requires m.fractional < 0 && rules.showSymbol
    ensures Format(c, m, rules, negative, positive) ==
      N.Render(N.LayoutOf(NegativeLayout(c, negative)), ResolveSymbol(c, rules), FormatNumber(c, m, rules.noCents))
  {
    N.SubstitutedDescription(NegativeLayout(c, negative), ResolveSymbol(c, rules), FormatNumber(c, m, rules.noCents));
  }

  /** A non-negative amount with its symbol is the positive layout filled with
      the symbol and the number text. */
  lemma FormatPositive(c: Currency, m: Money, rules: Rules,
                       negative: Option<N.NegativePosition>, positive: Option<P.PositivePosition>)
    requires Decimal(c) && |c.symbols| > 0
    requires m.fractional >= 0 && rules.showSymbol
    ensures var p := PositiveLayout(c, positive);
      Format(c, m, rules, negative, positive) ==
        P.Render(P.SymbolFirst(p), P.WithSpace(p), ResolveSymbol(c, rules), FormatNumber(c, m, rules.noCents))
  {
    P.SubstitutedDescription(PositiveLayout(c, positive), ResolveSymbol(c, rules), FormatNumber(c, m, rules.noCents));
  }

  /** Without the symbol a non-negative amount is the bare number text. */
  lemma FormatWithoutSymbolPositive(c: Currency, m: Money, rules: Rules,
                                    negative: Option<N.NegativePosition>, positive: Option<P.PositivePosition>)
    requires Decimal(c) && |c.symbols| > 0
    requires m.fractional >= 0 && !rules.showSymbol
    ensures Format(c, m, rules, negative, positive) == FormatNumber(c, m, rules.noCents)
  {
    PlacePositiveWithoutSymbol(PositiveLayout(c, positive), ResolveSymbol(c, rules), FormatNumber(c, m, rules.noCents));
  }

  /** Without the symbol a negative amount keeps its sign or parentheses but
      loses the symbol and the space beside it. */
  lemma FormatWithoutSymbolNegative(c: Currency, m: Money, rules: Rules,
                                    negative: Option<N.NegativePosition>, positive: Option<P.PositivePosition>)
    requires Decimal(c) && |c.symbols| > 0
    requires m.fractional < 0 && !rules.showSymbol
    ensures Format(c, m, rules, negative, positive) ==
      N.Render(N.LayoutOf(NegativeLayout(c, negative)).(spaced := false), "", FormatNumber(c, m, rules.noCents))
  {
    PlaceNegativeWithoutSymbol(NegativeLayout(c, negative), ResolveSymbol(c, rules), FormatNumber(c, m, rules.noCents));
  }

  /** `Money.ToString` with its named options: the money's own currency formats it. */
  function MoneyToString(m: Money, rules: Rules,
                         negative: Option<N.NegativePosition>, positive: Option<P.PositivePosition>): string
    requires Decimal(m.currency) && |m.currency.symbols| > 0
  {
    Format(m.currency, m, rules, negative, positive)
  }
}
