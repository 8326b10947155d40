/** The formatting options: nine flags, fixed when the options are created. */
module FormattingRules {

  datatype Rules = Rules(
    disambiguate: bool,
    dropTrailingZeros: bool,
    roundedInfinitePrecision: bool,
    noCents: bool,
    noCentsIfWhole: bool,
    signBeforeSymbol: bool,
    showPositiveSign: bool,
    showSymbol: bool,
    withCurrency: bool)

  /** The options constructor: every flag is the argument of the same name,
      and an argument left out takes its default. */
  function NewRules(
    disambiguate: bool := false,
    dropTrailingZeros: bool := false,
    roundedInfinitePrecision: bool := false,
    noCents: bool := false,
    noCentsIfWhole: bool := false,
    signBeforeSymbol: bool := false,
    showPositiveSign: bool := false,
    showSymbol: bool := true,
    withCurrency: bool := true): (r: Rules)
    ensures r.disambiguate == disambiguate && r.dropTrailingZeros == dropTrailingZeros
    ensures r.roundedInfinitePrecision == roundedInfinitePrecision && r.noCents == noCents
    ensures r.noCentsIfWhole == noCentsIfWhole && r.signBeforeSymbol == signBeforeSymbol
    ensures r.showPositiveSign == showPositiveSign && r.showSymbol == showSymbol
    ensures r.withCurrency == withCurrency
  {
    Rules(disambiguate, dropTrailingZeros, roundedInfinitePrecision, noCents, noCentsIfWhole,
      signBeforeSymbol, showPositiveSign, showSymbol, withCurrency)
  }

  /** With every argument left out, only the symbol and the currency are shown. */
  lemma Defaults()
    ensures var r := NewRules();
      r.showSymbol && r.withCurrency &&
      !r.disambiguate && !r.dropTrailingZeros && !r.roundedInfinitePrecision && !r.noCents &&
      !r.noCentsIfWhole && !r.signBeforeSymbol && !r.showPositiveSign
  {
  }

  /** Every options value is what the constructor makes of its own flags. */
  lemma NewRulesOfFlags(r: Rules)
    ensures NewRules(r.disambiguate, r.dropTrailingZeros, r.roundedInfinitePrecision, r.noCents,
      r.noCentsIfWhole, r.signBeforeSymbol, r.showPositiveSign, r.showSymbol, r.withCurrency) == r
  {
  }
}
