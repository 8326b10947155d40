# Money-NET in Dafny

A model of the core of Money-NET, a C# library for amounts of money:

- **The currency registry.** Every currency the `Currency` class declares enters a shared dictionary keyed by its ISO code. `Get`, `Find(string)`, `Find(int)` and `All` look currencies up. Currencies compare by code.
- **The currency record's derived values.** These are the main symbol, `IsIso` and `Exponent`.
- **Number layouts.** The sixteen negative layouts and four positive layouts of .NET's `CurrencyNegativePattern` and `CurrencyPositivePattern`.
- **The formatting options.** The `Rules` record with nine flags.
- **The formatter.** It splits an amount's minor units into whole and fractional digits, pads the fraction to the currency's exponent and groups the whole part in threes. It then places the number and the symbol in the currency's layout.
- **Money amounts.** Equality and integer arithmetic on amounts, and the money object whose bank can be replaced.
- **The variable-exchange bank.** It holds a table of directed rates, each filed under its key `FROM_TO`. It looks rates up and converts an amount at the stored rate.

Modules, one per source file:

| Module | Source file |
|---|---|
| `Currencies` | `Money/Currency.cs` |
| `NegativePositions`, `PositivePositions` | `Money/Enums` |
| `FormattingRules` | `Money/Formatting/Rules.cs` |
| `Formatting` | `Money/Formatter.cs` |
| `Monies` | `Money/Money.cs` |
| `Rates` | `Money/Rate.cs` |
| `Exchange` | `Money/Bank/VariableExchange.cs` |

Helper modules:

- `Results` holds `Option` and `Result`. A null reference or a thrown exception becomes `None` or `Err`.
- `Text` holds character counting, deletion, placeholder substitution, `IsNullOrWhiteSpace` and `CompareOrdinal`.
- `Digits` holds powers of ten, digit strings and the rounded base-10 logarithm.
- `FormatterExamples` holds the formatting tests, stated as lemmas.

Entities:

- Values are datatypes: `Currency`, `Money`, `Rules`, `Rate`.
- Objects whose fields change are classes:
  - `Currencies.Catalog` for the static currency dictionary.
  - `Exchange.VariableExchange` for the static rate dictionary.
  - `Monies.MoneyObject` for the bank field of a money object.
- .NET `decimal` is modelled as `real`. The `(long)` cast is truncation toward zero.

Where the sources are incomplete, the model follows the tests:

- `Money/Formatter.cs` is unfinished:
  - `FormatDecimalPart` has no `return` and calls `ljust`, which C# does not define.
  - `FormatNumberPart` returns null.
  - `Format` returns the number without the symbol.
  - `Currency` has no `DecimalMark`.
- What the model does instead:
  - The fraction is padded with zeros to `Exponent` digits, as the code's comment says.
  - The whole part is grouped with the currency's group separator.
  - The currency's decimal separator goes between the two parts.
  - The number and the symbol are placed in the currency's layout.
  - These are what `Money.Tests/FormatterTests.cs` expects.
- The split of the amount itself follows the code. The model keeps the code's split and proves where it goes wrong (see Findings). The corrected split is what the formatter uses.
- The doc comment of `Currency.Find` (`Money/Currency.cs:200`) gives `Find("eur")` as finding the euro, but the lookup it calls is case-sensitive (`Money/Currency.cs:183-186`). The model follows the code: `Find("eur")` is null.
- `Money/Money.cs` holds only the bank. The amount (`Fractional`, `Currency`), its arithmetic and its `ToString` come from the tests in `Money.Tests/Money`.

## Model

| member | source | states |
|---|---|---|
| Currencies.Create | Money/Currency.cs:135-167 | the record holds the constructor's arguments, is ISO (has a number), and its main symbol is the first symbol given |
| Currencies.Symbol | Money/Currency.cs:122 | the main symbol is one of the currency's symbols |
| Currencies.Exponent | Money/Currency.cs:262-269 | log10 of the subunit ratio, rounded; for a ratio that is a power of ten, 10^Exponent is exactly the ratio |
| Currencies.Equals | Money/Currency.cs:291-306 | equal exactly when the argument is a currency (not null) with the same code |
| Currencies.OperatorEquals | Money/Currency.cs:328-335 | `==` holds exactly when both are null or both are currencies with the same code |
| Currencies.OperatorNotEquals | Money/Currency.cs:343-346 | `!=` is exactly the negation of that condition |
| Currencies.OperatorEqualsIsEquivalence | Money/Currency.cs:328-335 | `==` is reflexive, symmetric and transitive |
| Currencies.CompareTo | Money/Currency.cs:256-260 | the ordinal comparison of the codes, as a sign; zero exactly when `Equals` holds |
| Currencies.CompareToAntisymmetric | Money/Currency.cs:256-260 | swapping the operands negates the result |
| Currencies.CompareToTransitive | Money/Currency.cs:256-260 | the order is transitive |
| Currencies.ToStringIdentifies | Money/Currency.cs:313-316 | `ToString` gives the code, so two currencies print alike exactly when they are equal |
| Currencies.TableUsesConstructor | Money/Currency.cs:17-100 | USD, GBP and EUR are the constructor applied to the table's arguments; every currency in the table is ISO, has a symbol and a positive ratio |
| Currencies.KnownExponents | Money/Currency.cs:269 | the exponents of the table's currencies: 2 for a ratio of 100, 3 for 1000 (BHD, JOD, KWD, IQD), 0 for BIF and 4 for CLF |
| Currencies.ExponentRounds | Money/Currency.cs:262-269 | a ratio of 5 has exponent 1: the logarithm is rounded, not truncated |
| Currencies.KeepFirst | Money/Currency.cs:166 | registering a currency whose code is present keeps the entry already there; a new code is added; no other entry changes |
| Currencies.RegisteredLookup | Money/Currency.cs:166 | after a sequence of registrations, each code maps to the entry that was present, or else to the first currency registered with that code |
| Currencies.Catalog.constructor | Money/Currency.cs:17-100 | the registry starts as the table's currencies registered in declaration order, every entry filed under its own code |
| Currencies.Catalog.RegisterAll | Money/Currency.cs:166 | the table becomes the old one with each currency of the sequence registered in turn, and the invariant is kept |
| Currencies.Catalog.Register | Money/Currency.cs:166 | the table becomes `KeepFirst` of the old table, and the invariant is kept |
| Currencies.Catalog.Get | Money/Currency.cs:178-189 | success exactly when the code is not blank and is registered, with the entry filed under that code; otherwise `UnknownCurrency(code)` |
| Currencies.Catalog.Find | Money/Currency.cs:206-216 | null exactly when `Get` fails; otherwise what `Get` returns |
| Currencies.Catalog.FindNumber | Money/Currency.cs:234-249 | a registered currency with that ISO number, or null only when no registered currency has it |
| Currencies.Catalog.All | Money/Currency.cs:251-254 | the registered currencies: each one with a non-blank code is what `Get` returns for its code, and every success of `Get` is among them |
| Currencies.InitialRegistry | Money/Currency.cs:17-100 | in the initial registry, each code of the table maps to that code's currency |
| Currencies.InitialRegistryOnlyTable | Money/Currency.cs:17-100 | the initial registry holds nothing but the table's currencies |
| Currencies.KnownAscending | Money/Currency.cs:17-100 | the table is declared in strictly ascending code order, so no two of its currencies share a code |
| Currencies.NotAKnownCode | Money/Currency.cs:178-189 | a code that is not in the table is not in the initial registry |
| Currencies.KnownFirstWithCode | Money/Currency.cs:17-100 | each currency of the table is the first with its code |
| Currencies.KnownNumbers | Money/Currency.cs:227-230 | in the table, number 978 belongs only to EUR and 51 only to AMD, and no currency has number 1 |
| Currencies.GetKnownCode | Money/Currency.cs:178-189 | `Get("USD")` in the initial registry returns USD |
| Currencies.FindIsCaseSensitive | Money/Currency.cs:183-216 | `Find("eur")` returns null: the dictionary's keys are compared exactly, whatever the doc comment's example says |
| Currencies.GetBlankCode | Money/Currency.cs:180-181 | a white-space code is an unknown currency |
| Currencies.FindKnownNumbers | Money/Currency.cs:227-229 | `Find(978)` gives EUR and `Find(51)` gives AMD |
| Currencies.FindUnknownNumber | Money/Currency.cs:230 | a number no currency has gives null |
| Currencies.ComparisonExamples | Money.Tests/Currency/ComparisonTests.cs:8-17 | SEK equals itself and differs from USD under `==`, `!=` and `Equals`; `ToString` is the code; a null currency equals only null |
| Text.CompareOrdinal | Money/Currency.cs:259 | `string.CompareOrdinal` as a sign: the strings' UTF-16 code units compared in order, a proper prefix first; zero exactly for equal strings |
| Text.Utf16Injective | Money/Currency.cs:259 | distinct strings have distinct UTF-16 encodings, so comparing units decides equality of the strings |
| Text.Utf16OfBmp | Money/Currency.cs:259 | a string without characters above U+FFFF encodes as its own character codes, one unit each |
| Text.SurrogatesSortLow | Money/Currency.cs:259 | a character above U+FFFF sorts before U+E000, by its high surrogate, although its code point is larger |
| Currencies.LetterCodeOrder | Money/Currency.cs:256-260 | three-letter codes of capital letters compare letter by letter |
| Digits.RoundedLog10 | Money/Currency.cs:269 | the integer r with 10^(2r) <= 10 n^2 < 10^(2r+2), i.e. log10 n rounded to nearest |
| Digits.RoundedLog10OfPower | Money/Currency.cs:269 | the rounded logarithm of 10^k is k |
| Digits.Numeral | Money/Formatter.cs:42 | the shortest decimal numeral of n: digits only, no leading zero, denoting n |
| Digits.PadRight | Money/Formatter.cs:50 | the text followed by fill characters up to the width; a longer text is unchanged |
| Digits.PadRestoresStrip | Money/Formatter.cs:47-51 | padding with zeros restores what stripping trailing zeros removed |
| NegativePositions.Ordinal | Money/Enums/NegativePosition.cs:15-48 | the enum value lies in 0..15, and converting it back gives the member |
| NegativePositions.FromOrdinal | Money/Enums/NegativePosition.cs:15-48 | an integer names a member exactly when it lies in 0..15 |
| NegativePositions.OrdinalsAreDense | Money/Enums/NegativePosition.cs:15-48 | each value in 0..15 names a member whose value it is |
| NegativePositions.DescriptionIsLayout | Money/Enums/NegativePosition.cs:17-48 | each description is its layout rendered with placeholders `$` and `n`; the layout is symbol first or last, sign before, between, after or as parentheses, spaced or not |
| NegativePositions.LayoutsAreDistinct | Money/Enums/NegativePosition.cs:17-48 | no two members share a layout |
| NegativePositions.LayoutsAreExhaustive | Money/Enums/NegativePosition.cs:17-48 | every combination of the three choices is some member |
| NegativePositions.OneSymbolOneNumber | Money/Enums/NegativePosition.cs:17-48 | every description holds the symbol once and the number once |
| NegativePositions.OneNegativeMarker | Money/Enums/NegativePosition.cs:17-48 | every description marks the amount negative in exactly one way: one '-' and no parentheses, or one pair of parentheses and no '-' |
| NegativePositions.SpaceCount | Money/Enums/NegativePosition.cs:17-48 | Zero to Seven hold no space; Eight to Fifteen hold exactly one |
| NegativePositions.SpaceIndex | Money/Enums/NegativePosition.cs:33-48 | the one space of a spaced layout stands next to the symbol |
| NegativePositions.Unspaced | Money/Enums/NegativePosition.cs:17-48 | a spaced layout's unspaced counterpart: the same symbol and sign choices, without the space |
| NegativePositions.SpaceDeleted | Money/Enums/NegativePosition.cs:17-48 | deleting the space from a spaced description gives its unspaced counterpart's description |
| NegativePositions.SpaceDeletedInjective | Money/Enums/NegativePosition.cs:33-48 | no two spaced descriptions collapse to the same text when the space is deleted |
| NegativePositions.ReadRendered | Money/Enums/NegativePosition.cs:17-48 | reading back the pattern a layout renders gives that layout |
| NegativePositions.RenderDetermines | Money/Enums/NegativePosition.cs:17-48 | distinct layouts render to distinct patterns |
| NegativePositions.RenderWithoutSpace | Money/Enums/NegativePosition.cs:17-48 | deleting the spaces from a rendered layout gives the unspaced layout, for any symbol and number without spaces |
| NegativePositions.SubstitutedDescription | Money/Enums/NegativePosition.cs:17-48 | filling a description's placeholders with a symbol and a number renders its layout with them |
| PositivePositions.Ordinal | Money/Enums/PositivePosition.cs:15-24 | the enum value lies in 0..3, and converting it back gives the member |
| PositivePositions.FromOrdinal | Money/Enums/PositivePosition.cs:15-24 | an integer names a member exactly when it lies in 0..3 |
| PositivePositions.DescriptionIsLayout | Money/Enums/PositivePosition.cs:17-24 | each description is symbol first or last, with or without a space |
| PositivePositions.ChoicesDetermineMember | Money/Enums/PositivePosition.cs:17-24 | the two choices identify the member |
| PositivePositions.OneSymbolOneNumberNoSign | Money/Enums/PositivePosition.cs:17-24 | every description holds the symbol once, the number once, and no sign or parenthesis |
| PositivePositions.SymbolPlacement | Money/Enums/PositivePosition.cs:17-24 | Before and BeforeWithSpace open with the symbol and end with the number; After and AfterWithSpace the other way round |
| PositivePositions.Unspaced | Money/Enums/PositivePosition.cs:17-24 | the member without the space and with the same symbol placement |
| PositivePositions.SpaceDeleted | Money/Enums/PositivePosition.cs:17-24 | deleting the space from a description gives its unspaced member's description |
| PositivePositions.SubstitutedDescription | Money/Enums/PositivePosition.cs:17-24 | filling the placeholders renders the layout with the symbol and the number |
| FormattingRules.NewRules | Money/Formatting/Rules.cs:15-35 | every flag is its argument |
| FormattingRules.Defaults | Money/Formatting/Rules.cs:15-24 | with no arguments, only `ShowSymbol` and `WithCurrency` are set |
| FormattingRules.NewRulesOfFlags | Money/Formatting/Rules.cs:26-34 | every options value is what the constructor makes of its own flags |
| Formatting.ExtractParts | Money/Formatter.cs:34-45 | whole-unit digits without a leading zero, and fraction digits at most `Exponent` long without trailing zeros; padded, the fraction is below one unit, and together they make up the amount's magnitude exactly |
| Formatting.ExtractPartsAsWritten | Money/Formatter.cs:34-45 | the code's split: always two fraction digits, the amount rounded to hundredths away from zero, a '-' exactly for an amount still negative after rounding |
| Formatting.Hundredths | Money/Formatter.cs:42 | the magnitude in hundredths, rounded half away from zero |
| Formatting.FormatDecimalPart | Money/Formatter.cs:47-51 | the fraction followed by zeros up to `Exponent` digits; a longer fraction is unchanged |
| Formatting.FormatNumberPart | Money/Formatter.cs:53-56 | the whole part grouped with the currency's separator; without a separator it is the digits themselves |
| Formatting.GroupWithout | Money.Tests/FormatterTests.cs:59-63 | deleting the group separators from a grouped number gives back its digits |
| Formatting.GroupCount | Money.Tests/FormatterTests.cs:59-63 | a number of n digits receives (n - 1) / 3 separators |
| Formatting.FormatNumberDenotes | Money/Formatter.cs:22-32 | with the group separators deleted, the number text is the whole units, the decimal mark and the padded fraction; the last two are left out when cents are dropped or the currency has none |
| Formatting.ResolveSymbol | Money.Tests/FormatterTests.cs:134-152 | no symbol when it is hidden; the disambiguation symbol when asked for and the currency has one; otherwise the main symbol |
| Formatting.PlacePositiveWithoutSymbol | Money.Tests/FormatterTests.cs:15-17 | a positive layout without its symbol is the bare number, whatever the layout |
| Formatting.PlaceNegativeWithoutSymbol | Money/Formatter.cs:14-20 | a negative layout without its symbol keeps its sign or parentheses and loses the space |
| Formatting.FormatNegative | Money.Tests/FormatterTests.cs:83-121 | a negative amount is the number text and the symbol rendered in the given negative layout, or else the currency's |
| Formatting.FormatPositive | Money.Tests/FormatterTests.cs:124-131 | a non-negative amount is the number text and the symbol rendered in the given positive layout, or else the currency's |
| Formatting.FormatWithoutSymbolPositive | Money.Tests/FormatterTests.cs:15-17 | without the symbol, a non-negative amount is exactly its number text |
| Formatting.FormatWithoutSymbolNegative | Money/Formatter.cs:14-20 | without the symbol, a negative amount is its number text with the layout's negative marker |
| FormatterExamples.ShouldFormat | Money.Tests/FormatterTests.cs:9-18 | "$1.00", "£1.00" and "€1,00", and the same without the symbol |
| FormatterExamples.ShouldFormatCurrencies | Money.Tests/FormatterTests.cs:21-56 | 1000 units of BRL, CAD, USD, EUR, CZK, DKK, SEK and GBP print as the test expects |
| FormatterExamples.ShouldInsertCommasIfAmountIsSufficientlyLarge | Money.Tests/FormatterTests.cs:59-63 | "$1,000,000,000" without cents and "$1,000,000,000.12" with them |
| FormatterExamples.ShouldUseCorrectThousandsSeparator | Money.Tests/FormatterTests.cs:66-80 | "$250,000.00", "250 000,00 kr", "€1.234.567,12" and "€1.234.567" |
| FormatterExamples.ShouldHandleNegativePositioningPound | Money.Tests/FormatterTests.cs:85-101 | -1 pound in the currency's layout and in each of the sixteen layouts |
| FormatterExamples.ShouldHandleNegativePositioningKrona | Money.Tests/FormatterTests.cs:104-120 | -1 krona in the currency's layout and in each of the sixteen layouts |
| FormatterExamples.ShouldHandlePositivePositioning | Money.Tests/FormatterTests.cs:124-131 | "1.00$", "1.00 $", "kr1,00", "kr 1,00" |
| FormatterExamples.ShouldHandleDisambiguateSymbols | Money.Tests/FormatterTests.cs:134-153 | "C$1,999.98", "1.999,98 DKK", "1 999,98 SEK", "US$1,999.98", and each without the symbol |
| FormatterExamples.ArithmeticFormats | Money.Tests/Money/ArithmeticTests.cs:17-20 | 10 dollars plus 90 cents prints "$10.90"; plus nothing prints "$10.00" |
| FormatterExamples.ExtractPartsDropsThirdDecimal | Money/Formatter.cs:42 | for 1.234 Bahraini dinars the code's split gives fraction "230", the exact split "234" |
| FormatterExamples.ExtractPartsGivesCentsToWholeCurrency | Money/Formatter.cs:42 | for 12 Burundian francs the code's split carries a fraction "00" that the currency does not have; the exact number text is "12" |
| Monies.Equals | Money.Tests/Money/ComparisonTests.cs:10-20 | equal exactly when the minor units agree and the currencies are equal |
| Monies.NotEquals | Money.Tests/Money/ComparisonTests.cs:13-20 | the negation of `Equals` |
| Monies.EqualsIsEquivalence | Money.Tests/Money/ComparisonTests.cs:10-20 | money equality is reflexive, symmetric and transitive |
| Monies.Add | Money.Tests/Money/ArithmeticTests.cs:10 | the sum in the first currency when the codes agree; otherwise `DifferentCurrency` |
| Monies.Subtract | Money.Tests/Money/ArithmeticTests.cs:12 | the difference in the first currency when the codes agree; otherwise `DifferentCurrency` |
| Monies.AddUnits | Money.Tests/Money/ArithmeticTests.cs:11 | adding raw minor units keeps the currency |
| Monies.SubtractUnits | Money.Tests/Money/ArithmeticTests.cs:13 | subtracting raw minor units keeps the currency |
| Monies.Multiply | Money.Tests/Money/ArithmeticTests.cs:15 | the minor units times the factor, in the same currency |
| Monies.Quotient | Money.Tests/Money/ArithmeticTests.cs:14 | C# integer division: the remainder is smaller than the divisor and has the dividend's sign |
| Monies.Divide | Money.Tests/Money/ArithmeticTests.cs:14 | the truncated quotient in the same currency; `DivideByZero` exactly for a zero divisor |
| Monies.DivideUndoesMultiply | Money.Tests/Money/ArithmeticTests.cs:14-15 | dividing by a nonzero factor undoes multiplying by it |
| Monies.SubtractUndoesAdd | Money.Tests/Money/ArithmeticTests.cs:10-13 | subtracting what was added gives back the amount |
| Monies.SubtractUnitsUndoesAddUnits | Money.Tests/Money/ArithmeticTests.cs:11-13 | the same for raw minor units |
| Monies.AddZero | Money.Tests/Money/ArithmeticTests.cs:19-20 | adding zero, as an amount or as units, changes nothing |
| Monies.AddUnitsIsAdd | Money.Tests/Money/ArithmeticTests.cs:10-11 | adding raw units is adding an amount of the same currency |
| Monies.ArithmeticExamples | Money.Tests/Money/ArithmeticTests.cs:10-15 | 1500, 800, 500 and 5000 cents as the test expects, and the SEK and USD equalities |
| Monies.MoneyObject.constructor | Money/Money.cs:20-23 | a new money object carries a variable-exchange bank |
| Monies.MoneyObject.SetBank | Money/Money.cs:34-39 | the bank is replaced and the same object is returned |
| Rates.PairKey | Money/Bank/VariableExchange.cs:101 | the key of a pair: the two codes joined by '_' |
| Rates.Key | Money/Rate.cs:16-19 | a rate's key is its pair's key, and it splits back into the two codes when the first has no '_' |
| Rates.SplitKey | Money/Rate.cs:18 | reading a key back: fails exactly when there is no '_'; the parts rejoin to the key |
| Rates.SplitKeyOfPairKey | Money/Rate.cs:16-19 | splitting the key of a pair whose first code has no '_' gives the pair back |
| Rates.PairKeyInjective | Money/Rate.cs:18 | the key determines the ordered pair when the first code has no '_' |
| Rates.KeyIgnoresValue | Money/Bank/VariableExchange.cs:88-91 | two rates of one pair share a key, whatever their values |
| Rates.KeyIsDirected | Money.Tests/BankTests.cs:15-16 | the reversed pair of distinct codes has a different key |
| Rates.KeyExamples | Money.Tests/BankTests.cs:15-16 | the keys "USD_CAD" and "CAD_USD" |
| Exchange.WithRate | Money/Bank/VariableExchange.cs:88-91 | after `SetRate` the rate's key holds the rate and no other key changes; every rate stays filed under its own key |
| Exchange.Lookup | Money/Bank/VariableExchange.cs:99-104 | found exactly when the pair's key is present, and then exactly the entry stored under that key |
| Exchange.FiledUnderPair | Money/Bank/VariableExchange.cs:99-104 | in a well-formed table the rate found is filed under the pair's key and, for codes without '_', is the rate of that pair |
| Exchange.LookupAfterAdd | Money/Bank/VariableExchange.cs:66-71 | after a rate is added, looking up its pair gives that rate |
| Exchange.LookupOtherPair | Money/Bank/VariableExchange.cs:88-91 | adding a rate leaves the lookup of every other pair unchanged |
| Exchange.RatesAreDirected | Money/Bank/VariableExchange.cs:99-104 | adding (from, to) provides no rate for (to, from) |
| Exchange.ReAddReplaces | Money.Tests/BankTests.cs:9-17 | re-adding a pair keeps one entry for it, holding the newest rate, and the table's size stays |
| Exchange.AddNewGrows | Money.Tests/MoneyTests.cs:29-31 | a rate for a new pair adds exactly one entry |
| Exchange.Fractional | Money/Bank/VariableExchange.cs:106-118 | unchanged between currencies of equal ratios |
| Exchange.FractionalScales | Money/Bank/VariableExchange.cs:106-118 | the rescaled amount is worth as much as the original: amount times the target's ratio equals result times the source's ratio |
| Exchange.Truncate | Money/Bank/VariableExchange.cs:51 | the `(long)` cast: the integer part, cut toward zero |
| Exchange.ExchangeIn | Money/Bank/VariableExchange.cs:43-54 | `UnknownRate(from, to)` exactly when no rate is stored for the pair; otherwise the rescaled amount times the rate, truncated toward zero, in the target currency |
| Exchange.ExchangeAtParity | Money/Bank/VariableExchange.cs:43-54 | at a rate of one between equal ratios the amount is kept |
| Exchange.ExampleRates | Money/Bank/VariableExchange.cs:18-21 | the example's table is well formed |
| Exchange.ExchangeExamples | Money/Bank/VariableExchange.cs:18-30 | 100 USD give 124.51 CAD, 100 CAD give 80.31 USD, and an empty table fails |
| Exchange.VariableExchange.constructor | Money/Bank/VariableExchange.cs:41 | the table starts empty |
| Exchange.VariableExchange.Rates | Money/Bank/VariableExchange.cs:58 | the table, each rate filed under its own key |
| Exchange.VariableExchange.SetRate | Money/Bank/VariableExchange.cs:88-91 | the table becomes `WithRate` of the old one, and stays well formed |
| Exchange.VariableExchange.AddRate | Money/Bank/VariableExchange.cs:66-71 | the pair's rate is set, and `Get` then returns it |
| Exchange.VariableExchange.Get | Money/Bank/VariableExchange.cs:99-104 | found exactly when the pair's key is present, and then exactly the entry stored under that key, which in a valid table is filed under the pair's key |
| Exchange.VariableExchange.Exchange | Money/Bank/VariableExchange.cs:43-54 | fails exactly when `Get` finds no rate; a result is in the target currency |
| Exchange.ShouldExchangeCurrencies | Money.Tests/Bank/ExchangeTests.cs:9-31 | no rate fails; then 12451 CAD cents and 8031 USD cents; re-adding a rate leaves two entries |
| Exchange.ShouldAddRateOnBank | Money.Tests/MoneyTests.cs:23-42 | two added rates make two entries, each returned for its own pair |

## Left out

- Concurrency: both static dictionaries are `ConcurrentDictionary`. Each is modelled as one object that is updated one call at a time.
- Static state: the currency registry and the rate table are process-wide statics. They are modelled as one `Catalog` and one `VariableExchange` object that the caller holds. Aliasing between money objects that share the static bank is not modelled.
- Currencies.Catalog.constructor: registers a representative subset of the table (17 currencies, every one the tests use except AUD, INR and CNY). The full table of over 150 lines is not modelled, so the AUD, INR and CNY lines of the formatter tests are left out.
- Currencies.Catalog.FindNumber: returns some currency with the number. The source returns the first in the dictionary's enumeration order, which .NET leaves unspecified. The table has no duplicate numbers in the subset.
- Currencies.CompareTo: reduced to the sign of `string.CompareOrdinal`. The source returns the difference of the first differing UTF-16 units; the model compares the same units and keeps only the sign.
- Null references: a null code or currency is not representable as a Dafny string. Null currencies appear only as `None` in `==`, `!=` and `Equals`. Casting a non-currency argument in `CompareTo` is not modelled.
- `NumberFormatInfo`: only the separators and the two patterns are modelled. The mutable `Format` setter, `CurrencyDecimalDigits`, `CurrencySymbol` and `HtmlEntity` are not modelled.
- Floating point: `Math.Log10` in `Exponent` is replaced by the exact rounded logarithm. `AddRate(double)` and the `double` constructor of money (`new Money(49.99, …)`, `FromAmount`) are left out, since they convert binary floating point to `decimal`.
- Decimal range: .NET `decimal` has 28 to 29 significant digits and `long` has 64 bits. Reals and unbounded integers do not overflow, so an exchange whose result exceeds `long` is not modelled, nor is the wrap-around of money arithmetic (next line).
- Monies.Add, Monies.Subtract, Monies.AddUnits, Monies.SubtractUnits, Monies.Multiply, Monies.Quotient, Monies.Divide: amounts are unbounded integers. In the source an amount is a `long` (`Money.FromCents` receives the `(long)` value at `Money/Bank/VariableExchange.cs:51-53`), so unchecked `+`, `-` and `*` wrap around at 64 bits and `long.MinValue / -1` throws `OverflowException`. None of this is modelled.
- Monies.Add, Monies.Subtract: refusing operands of different currencies with `Err(DifferentCurrency)` is this model's choice. The money operators are not among these sources and the tests use only same-currency operands. In the source `DifferentCurrencyException` is thrown only by the single-currency bank's `Exchange` (`Money/Bank/SingleCurrency.cs:48-51`).
- Currencies.Exponent: requires a ratio of at least 1. For a ratio of 0 the source takes `Math.Log10(0)`, negative infinity, and casts its rounding to `int`; that case is not modelled. Every ratio in the table is at least 1.
- Formatting.ExtractParts, Formatting.FormatNumber, Formatting.Format, Formatting.MoneyToString and the lemmas about them: require `Decimal`, a ratio that is a power of ten. The source also formats a currency whose ratio is not, such as 5 (MGA, MRU), with `Exponent` rounded; that case is not modelled. Every ratio in the table is a power of ten.
- Exchange.Fractional: requires both subunit ratios to be positive. A zero ratio makes the source divide by zero and throw, which is not modelled. Every ratio in the table is positive.
- Exchange.FiledUnderPair: the rate found is proved to be for the requested pair only when the codes have no '_'. With '_' inside a code, "A_B" + "_" + "C" and "A" + "_" + "B_C" share a key. No ISO code contains '_'.
- Exchange.VariableExchange.Exchange: states only when it fails and the result's currency. The amount is stated on `Exchange.ExchangeIn`, which it calls.
- Exceptions: `UnknownCurrencyException` and `UnknownRateException` become `Err` cases that carry the codes. `DifferentCurrencyException` belongs to the single-currency bank, which is outside this model. `Money.FromCents` is the `Money` constructor.
- Other banks: `SingleCurrency` and the `IBank` interfaces are outside this model. `SetBank` takes a `BankKind` tag.
- Formatting.Format: the flags `DropTrailingZeros`, `RoundedInfinitePrecision`, `NoCentsIfWhole`, `SignBeforeSymbol`, `ShowPositiveSign` and `WithCurrency` are carried but not applied. Neither the formatter code nor its tests give them a meaning.
- `NoCents`: drops the fraction without rounding the whole part, as the test with 12 cents shows. Rounding at half a unit is not modelled.
- Cash rounding by `SmallestDenomination` and the unused `HtmlEntity` are not modelled.
- Money.Tests/CurrencyTests.cs asserts properties the class does not have (`Centesimal`, `SymbolFirst`, `DecimalMark`). It is not part of this model.

## Findings

| source | as written | input that shows it | evidently intended | confidence | as-written member | corrected member |
|---|---|---|---|---|---|---|
| Money/Formatter.cs:42 | the amount in units is printed with `ToString("F")` in en-US, which always gives two decimals, and then padded to `Exponent` digits | 1234 fils of BHD (exponent 3): the split gives "1" and "23", padded to "230", so 1.234 dinars format as 1.230 | the fraction carries all `Exponent` digits of the exact amount: "234" | high (not executed) | FormatterExamples.ExtractPartsDropsThirdDecimal | Formatting.ExtractParts |
| Money/Formatter.cs:42 | the same two-decimal split for a currency without subunits | 12 francs of BIF (ratio 1, exponent 0): the split gives "12" and "00", so a decimal part is printed that the currency does not have | no decimal part when `Exponent` is 0: "12" | high (not executed) | FormatterExamples.ExtractPartsGivesCentsToWholeCurrency | Formatting.ExtractParts |
