/** Currencies: the immutable currency record, its derived values and value
    semantics, and the registry every constructed currency enters. */
module Currencies {
  import opened Results
  import opened Text
  import opened Digits
  import opened NegativePositions
  import opened PositivePositions

  /** A currency. `number` is the ISO 4217 numeric code, `None` standing for
      a null `Number`; the separators and the two layouts are the parts of
      the currency's number format that the formatter reads. */
  datatype Currency = Currency(
    code: string,
    number: Option<int>,
    name: string,
    decimalSeparator: string,
    groupSeparator: string,
    negativePattern: NegativePosition,
    positivePattern: PositivePosition,
    subUnit: string,
    subUnitToUnit: int,
    smallestDenomination: int,
    symbols: seq<string>,
    disambiguateSymbol: Option<string>,
    priority: int)

  /** The currency constructor's field assignments. The symbol list must not
      be empty: the constructor takes its first element. */
  function Create(
    code: string, number: int, name: string,
    decimalSeparator: string, groupSeparator: string,
    negativePattern: NegativePosition, positivePattern: PositivePosition,
    subUnit: string, subUnitToUnit: int, smallestDenomination: int,
    symbols: seq<string>, disambiguateSymbol: Option<string> := None, priority: int := 100): (c: Currency)
    requires |symbols| > 0
    ensures IsIso(c) && c.number == Some(number)
    ensures |c.symbols| > 0 && Symbol(c) == symbols[0]
    ensures c.code == code && c.subUnitToUnit == subUnitToUnit && c.symbols == symbols
    ensures c.disambiguateSymbol == disambiguateSymbol && c.priority == priority
  {
    Currency(code, Some(number), name, decimalSeparator, groupSeparator, negativePattern, positivePattern,
      subUnit, subUnitToUnit, smallestDenomination, symbols, disambiguateSymbol, priority)
  }

  /** The currency's main symbol, the first of its symbols. */
  function Symbol(c: Currency): (s: string)
    requires |c.symbols| > 0
    ensures s in c.symbols
  {
    c.symbols[0]
  }

  /** Whether the currency has an ISO numeric code. */
  predicate IsIso(c: Currency)
  {
    c.number.Some?
  }

  /** The ratio of subunit to unit as a power of ten: log10 of the ratio,
      rounded to the nearest integer. */
  function Exponent(c: Currency): (e: nat)
    requires c.subUnitToUnit >= 1
    ensures IsPowerOfTen(c.subUnitToUnit) ==> Pow10(e) == c.subUnitToUnit
  {
    var e := RoundedLog10(c.subUnitToUnit);
    if IsPowerOfTen(c.subUnitToUnit) then
      var k: nat :| k <= c.subUnitToUnit && Pow10(k) == c.subUnitToUnit;
      RoundedLog10OfPower(k);
      e
    else e
  }

  /** `Equals(object)`: another currency with the same code; a null argument
      is never equal. The same instance is equal first of all. */
  function Equals(c: Currency, obj: Option<Currency>): (b: bool)
    ensures b <==> obj.Some? && obj.value.code == c.code
  {
    if obj.None? then false
    else if obj.value == c then true
    else c.code == obj.value.code
  }

  /** `operator ==` on two possibly-null currencies: both null, or `Equals`. */
  function OperatorEquals(lhs: Option<Currency>, rhs: Option<Currency>): (b: bool)
    ensures b <==> (lhs.None? && rhs.None?) || (lhs.Some? && rhs.Some? && lhs.value.code == rhs.value.code)
  {
    if lhs.None? then rhs.None? else Equals(lhs.value, rhs)
  }

  /** `operator !=` is the negation of `operator ==`. */
  function OperatorNotEquals(lhs: Option<Currency>, rhs: Option<Currency>): (b: bool)
    ensures b <==> !((lhs.None? && rhs.None?) || (lhs.Some? && rhs.Some? && lhs.value.code == rhs.value.code))
  {
    !OperatorEquals(lhs, rhs)
  }

  /** `operator ==` is an equivalence relation. */
  lemma OperatorEqualsIsEquivalence(a: Option<Currency>, b: Option<Currency>, c: Option<Currency>)
    ensures OperatorEquals(a, a)
    ensures OperatorEquals(a, b) == OperatorEquals(b, a)
    ensures OperatorEquals(a, b) && OperatorEquals(b, c) ==> OperatorEquals(a, c)
  {
  }

  /** `CompareTo`: ordinal comparison of the codes, reduced to its sign. */
  function CompareTo(c: Currency, other: Currency): (r: int)
    ensures -1 <= r <= 1
    ensures r == 0 <==> Equals(c, Some(other))
  {
    CompareOrdinal(c.code, other.code)
  }

  /** Swapping the operands of `CompareTo` flips the sign, so the order it
      induces on codes is total and antisymmetric. */
  lemma CompareToAntisymmetric(a: Currency, b: Currency)
    ensures CompareTo(b, a) == -CompareTo(a, b)
  {
    CompareOrdinalAntisymmetric(a.code, b.code);
  }

  lemma CompareToTransitive(a: Currency, b: Currency, c: Currency)
    requires CompareTo(a, b) < 0 && CompareTo(b, c) < 0
    ensures CompareTo(a, c) < 0
  {
    CompareOrdinalTransitive(a.code, b.code, c.code);
  }

  /** `ToString` gives the code. */
  function ToString(c: Currency): string
  {
    c.code
  }

  /** Two currencies print alike exactly when they are equal. */
  lemma ToStringIdentifies(c: Currency, d: Currency)
    ensures ToString(c) == ToString(d) <==> Equals(c, Some(d))
  {
  }

  // A representative part of the currency table, in the order it is declared.

  const AED: Currency := Currency("AED", Some(784), "United Arab Emirates Dirham", ".", ",", Eight, AfterWithSpace,
    "Fils", 100, 25, ["\U{062F}.\U{0625}.\U{200F}", "DH", "Dhs"], None, 100)
  const AMD: Currency := Currency("AMD", Some(51), "Armenian Dram", ".", ",", Eight, AfterWithSpace,
    "Luma", 100, 10, ["\U{058F}", "dram"], None, 100)
  const BHD: Currency := Currency("BHD", Some(48), "Bahraini Dinar", ".", ",", One, Before,
    "Fils", 1000, 5, ["\U{062F}.\U{0628}", "BD"], None, 100)
  const BIF: Currency := Currency("BIF", Some(108), "Burundian Franc", ".", ",", Eight, AfterWithSpace,
    "Centime", 1, 100, ["Fr", "FBu"], None, 100)
  const BRL: Currency := Currency("BRL", Some(986), "Brazilian Real", ",", ".", One, Before,
    "Centavo", 100, 5, ["R$"], None, 100)
  const CAD: Currency := Currency("CAD", Some(124), "Canadian Dollar", ".", ",", One, Before,
    "Cent", 100, 5, ["$", "C$", "CAD$"], Some("C$"), 100)
  const CLF: Currency := Currency("CLF", Some(990), "Unidad de Fomento", ",", ".", One, Before,
    "Peso", 10000, 1, ["UF"], None, 100)
  const CZK: Currency := Currency("CZK", Some(203), "Czech Koruna", ",", " ", Eight, AfterWithSpace,
    "Hal\U{00E9}\U{0159}", 100, 100, ["K\U{010D}"], None, 100)
  const DKK: Currency := Currency("DKK", Some(208), "Danish Krone", ",", ".", Eight, AfterWithSpace,
    "\U{00D8}re", 100, 50, ["kr.", ",-"], Some("DKK"), 100)
  const EGP: Currency := Currency("EGP", Some(818), "Egyptian Pound", ".", ",", One, Before,
    "Piastre", 100, 25, ["\U{062C}.\U{0645}", "LE", "E\U{00A3}", "L.E."], None, 100)
  const EUR: Currency := Currency("EUR", Some(978), "Euro", ",", ".", One, Before,
    "Cent", 100, 1, ["\U{20AC}"], None, 100)
  const GBP: Currency := Currency("GBP", Some(826), "British Pound", ".", ",", One, Before,
    "Penny", 100, 1, ["\U{00A3}"], None, 3)
  const IQD: Currency := Currency("IQD", Some(368), "Iraqi Dinar", ".", ",", Eight, AfterWithSpace,
    "Fils", 1000, 50000, ["\U{0639}.\U{062F}"], None, 100)
  const JOD: Currency := Currency("JOD", Some(400), "Jordanian Dinar", ".", ",", One, Before,
    "Fils", 1000, 5, ["\U{062F}.\U{0627}", "JD"], None, 100)
  const KWD: Currency := Currency("KWD", Some(414), "Kuwaiti Dinar", ".", ",", One, Before,
    "Fils", 1000, 5, ["\U{062F}.\U{0643}", "K.D."], None, 100)
  const SEK: Currency := Currency("SEK", Some(752), "Swedish Krona", ",", " ", Eight, AfterWithSpace,
    "\U{00D6}re", 100, 100, ["kr", ":-"], Some("SEK"), 100)
  const USD: Currency := Currency("USD", Some(840), "United States Dollar", ".", ",", One, Before,
    "Cent", 100, 1, ["$", "US$"], Some("US$"), 100)
  const Known: seq<Currency> :=
    [AED, AMD, BHD, BIF, BRL, CAD, CLF, CZK, DKK, EGP, EUR, GBP, IQD, JOD, KWD, SEK, USD]

  /** The table's entries are what the constructor makes of the arguments
      the table passes, a disambiguation symbol and a priority other than
      100 given only where the table names them. */
  lemma TableUsesConstructor()
    ensures USD == Create("USD", 840, "United States Dollar", ".", ",", One, Before,
      "Cent", 100, 1, ["$", "US$"], disambiguateSymbol := Some("US$"))
    ensures GBP == Create("GBP", 826, "British Pound", ".", ",", One, Before,
      "Penny", 100, 1, ["\U{00A3}"], priority := 3)
    ensures EUR == Create("EUR", 978, "Euro", ",", ".", One, Before, "Cent", 100, 1, ["\U{20AC}"])
    ensures forall c :: c in Known ==> IsIso(c) && |c.symbols| > 0 && c.subUnitToUnit >= 1
  {
    KnownWellFormed();
  }

  lemma KnownWellFormed()
    ensures forall c :: c in Known ==> IsIso(c) && |c.symbols| > 0 && c.subUnitToUnit >= 1
  {
    assert Listed(AED) && Listed(AMD) && Listed(BHD) && Listed(BIF) && Listed(BRL) && Listed(CAD);
    assert Listed(CLF) && Listed(CZK) && Listed(DKK) && Listed(EGP) && Listed(EUR) && Listed(GBP);
    assert Listed(IQD) && Listed(JOD) && Listed(KWD) && Listed(SEK) && Listed(USD);
    forall i | 0 <= i < |Known| ensures Listed(Known[i]) {
    }
  }

  /** What every entry of the table has: an ISO number, a symbol and a positive ratio. */
  predicate Listed(c: Currency)
  {
    IsIso(c) && |c.symbols| > 0 && c.subUnitToUnit >= 1
  }

  /** The table's ratios are powers of ten, so `Exponent` counts their zeros:
      2 for a ratio of 100, 3 for 1000, 0 for 1. */
  lemma KnownExponents()
    ensures Exponent(USD) == 2 && Exponent(EUR) == 2 && Exponent(SEK) == 2 && Exponent(GBP) == 2
    ensures Exponent(CAD) == 2 && Exponent(DKK) == 2 && Exponent(CZK) == 2 && Exponent(BRL) == 2
    ensures Exponent(BHD) == 3 && Exponent(JOD) == 3 && Exponent(KWD) == 3 && Exponent(IQD) == 3
    ensures Exponent(BIF) == 0 && Exponent(CLF) == 4
  {
    RoundedLog10OfPower(2);
    RoundedLog10OfPower(3);
    RoundedLog10OfPower(0);
    RoundedLog10OfPower(4);
    assert Pow10(2) == 100 && Pow10(3) == 1000 && Pow10(4) == 10000;
  }

  /** A ratio that is not a power of ten is rounded: 5 subunits to the unit
      give an exponent of 1, as log10(5) is about 0.7. */
  lemma ExponentRounds()
    ensures RoundedLog10(5) == 1
  {
    assert Pow10(2) == 100 && Pow10(4) == 10000;
    RoundedLog10Unique(5, 1);
  }

  /** `ToString` of SEK is "SEK"; SEK equals itself and differs from USD
      under `Equals`, `==` and `!=`. */
  lemma ComparisonExamples()
    ensures ToString(SEK) == "SEK"
    ensures OperatorEquals(Some(SEK), Some(SEK)) && !OperatorEquals(Some(SEK), Some(USD))
    ensures OperatorNotEquals(Some(SEK), Some(USD)) && !OperatorNotEquals(Some(SEK), Some(SEK))
    ensures Equals(SEK, Some(SEK)) && !Equals(SEK, Some(USD))
    ensures OperatorEquals(None, None) && !OperatorEquals(Some(SEK), None) && !OperatorEquals(None, Some(SEK))
  {
  }

  /** The registry's upsert: a code already present keeps the currency
      registered first; a new code is added; no other entry changes. */
  function KeepFirst(table: map<string, Currency>, c: Currency): (r: map<string, Currency>)
    ensures c.code in r && r[c.code] == (if c.code in table then table[c.code] else c)
    ensures forall k :: k != c.code ==> (k in r <==> k in table) && (k in table ==> r[k] == table[k])
  {
    if c.code in table then table else table[c.code := c]
  }

  /** The table after registering `cs` in order. */
  function Registered(table: map<string, Currency>, cs: seq<Currency>): map<string, Currency>
    decreases cs
  {
    if cs == [] then table else Registered(KeepFirst(table, cs[0]), cs[1..])
  }

  /** The first currency of `cs` with code `k`, if any. */
  function FirstWithCode(cs: seq<Currency>, k: string): (r: Option<Currency>)
    ensures r.Some? ==> r.value in cs && r.value.code == k
    ensures r.None? ==> forall c :: c in cs ==> c.code != k
  {
    if cs == [] then None
    else if cs[0].code == k then Some(cs[0])
    else FirstWithCode(cs[1..], k)
  }

  /** Registering a sequence keeps, for every code, the entry already present
      or else the first currency of the sequence with that code. */
  lemma {:induction false} RegisteredLookup(table: map<string, Currency>, cs: seq<Currency>, k: string)
    ensures k in Registered(table, cs) <==> k in table || FirstWithCode(cs, k).Some?
    ensures k in Registered(table, cs) ==>
      Registered(table, cs)[k] == if k in table then table[k] else FirstWithCode(cs, k).value
    decreases cs
  {
    if cs != [] {
      RegisteredLookup(KeepFirst(table, cs[0]), cs[1..], k);
    }
  }

  /** The currency registry. */
  class Catalog {
    var table: map<string, Currency>

    /** Every entry is filed under its own code. */
    ghost predicate Valid()
      reads this
    {
      forall k :: k in table ==> table[k].code == k
    }

    /** The registry as the table's static initialisation leaves it: every
        currency of the table registered in declaration order. */
    constructor ()
      ensures Valid()
      ensures table == Registered(map[], Known)
    {
      table := map[];
      new;
      RegisterAll(Known);
    }

    /** Registers each of `cs` in turn, first to last. */
    method RegisterAll(cs: seq<Currency>)
      modifies this
      ensures table == Registered(old(table), cs)
      ensures old(Valid()) ==> Valid()
    {
      var i := 0;
      while i < |cs|
        invariant 0 <= i <= |cs|
        invariant old(Valid()) ==> Valid()
        invariant Registered(table, cs[i..]) == Registered(old(table), cs)
      {
        assert cs[i..][1..] == cs[i + 1..];
        Register(cs[i]);
        i := i + 1;
      }
    }

    /** The constructor's `AddOrUpdate` with an update that keeps the existing value. */
    method Register(c: Currency)
      modifies this
      ensures table == KeepFirst(old(table), c)
      ensures old(Valid()) ==> Valid()
    {
      table := KeepFirst(table, c);
    }

    /** `Get`: the currency registered under exactly `code`; a null, empty or
        white-space code, or one never registered, is an unknown currency. */
    function Get(code: string): (r: Result<Currency, CurrencyError>)
      reads this
      ensures r.Ok? <==> !IsBlank(code) && code in table
      ensures r.Ok? ==> r.value == table[code] && (Valid() ==> r.value.code == code)
      ensures r.Err? ==> r.error == UnknownCurrency(code)
    {
      if IsBlank(code) then Err(UnknownCurrency(code))
      else if code !in table then Err(UnknownCurrency(code))
      else Ok(table[code])
    }

    /** `Find(string)`: `Get` with the unknown currency turned into null. */
    function Find(code: string): (r: Option<Currency>)
      reads this
      ensures r.None? <==> Get(code).Err?
      ensures r.Some? ==> Get(code) == Ok(r.value)
    {
      match Get(code)
      case Ok(c) => Some(c)
      case Err(_) => None
    }

    /** `Find(int)`: a registered currency with numeric code `number`, or null
        if there is none. The dictionary's enumeration order is unspecified,
        so the search takes the entries in any order. */
    method FindNumber(number: int) returns (r: Option<Currency>)
      ensures r.Some? ==> r.value in table.Values && r.value.number == Some(number)
      ensures r.None? ==> forall c :: c in table.Values ==> c.number != Some(number)
    {
      var pending := table.Keys;
      while pending != {}
        invariant pending <= table.Keys
        invariant forall k :: k in table && k !in pending ==> table[k].number != Some(number)
        decreases pending
      {
        var k :| k in pending;
        if table[k].number == Some(number) {
          return Some(table[k]);
        }
        pending := pending - {k};
      }
      return None;
    }

    /** `All`: the registered currencies. Each one that has a non-blank code
        is what `Get` returns for that code, and every success of `Get` is
        among them. */
    function All(): (r: set<Currency>)
      reads this
      ensures Valid() ==> forall c :: c in r && !IsBlank(c.code) ==> Get(c.code) == Ok(c)
      ensures forall code :: Get(code).Ok? ==> Get(code).value in r
    {
      table.Values
    }
  }

  datatype CurrencyError = UnknownCurrency(code: string)

  /** The currency the initial registry files under each code of the table
      is that code's currency, and it holds nothing else. */
  lemma InitialRegistry()
    ensures forall i :: 0 <= i < |Known| ==>
      Known[i].code in Registered(map[], Known) && Registered(map[], Known)[Known[i].code] == Known[i]
  {
    forall i | 0 <= i < |Known|
      ensures Known[i].code in Registered(map[], Known) && Registered(map[], Known)[Known[i].code] == Known[i]
    {
      RegisteredLookup(map[], Known, Known[i].code);
      KnownFirstWithCode(i);
    }
  }

  /** ... and holds nothing else. */
  lemma InitialRegistryOnlyTable()
    ensures forall k :: k in Registered(map[], Known) ==> Registered(map[], Known)[k] in Known
  {
    forall k | k in Registered(map[], Known)
      ensures Registered(map[], Known)[k] in Known
    {
      RegisteredLookup(map[], Known, k);
    }
  }

  /** The codes of `cs` strictly ascend in ordinal order. */
  predicate CodesAscending(cs: seq<Currency>)
  {
    forall i :: 0 <= i < |cs| - 1 ==> CompareOrdinal(cs[i].code, cs[i + 1].code) < 0
  }

  lemma {:induction false} AscendingFromHead(cs: seq<Currency>, j: nat)
    requires CodesAscending(cs) && 0 < j < |cs|
    ensures CompareOrdinal(cs[0].code, cs[j].code) < 0
  {
    if j > 1 {
      AscendingFromHead(cs, j - 1);
      CompareOrdinalTransitive(cs[0].code, cs[j - 1].code, cs[j].code);
    }
  }

  /** In a sequence with ascending codes each currency is the first with its code. */
  lemma {:induction false} AscendingFirstWithCode(cs: seq<Currency>, i: nat)
    requires CodesAscending(cs) && i < |cs|
    ensures FirstWithCode(cs, cs[i].code) == Some(cs[i])
  {
    if i > 0 {
      AscendingFromHead(cs, i);
      assert CodesAscending(cs[1..]);
      AscendingFirstWithCode(cs[1..], i - 1);
      assert cs[1..][i - 1] == cs[i];
    }
  }

  /** The table is declared in ascending code order. */
  lemma KnownAscending()
    ensures CodesAscending(Known)
  {
    KnownCodesMatch();
    KnownCodesAscending();
  }

  /** The codes of the table, in declaration order. */
  const KnownCodes: seq<string> :=
    ["AED", "AMD", "BHD", "BIF", "BRL", "CAD", "CLF", "CZK", "DKK", "EGP", "EUR", "GBP", "IQD", "JOD", "KWD", "SEK", "USD"]

  lemma KnownCodesMatch()
    ensures |Known| == |KnownCodes|
    ensures forall i :: 0 <= i < |Known| ==> Known[i].code == KnownCodes[i]
  {
  }

  lemma KnownCodesAscending()
    ensures forall i :: 0 <= i < |KnownCodes| - 1 ==> CompareOrdinal(KnownCodes[i], KnownCodes[i + 1]) < 0
  {
    forall i | 0 <= i < |KnownCodes| - 1
      ensures CompareOrdinal(KnownCodes[i], KnownCodes[i + 1]) < 0
    {
      LetterCodeOrder(KnownCodes[i], KnownCodes[i + 1]);
    }
  }

  /** Three-letter codes of capital Latin letters compare letter by letter. */
  lemma LetterCodeOrder(a: string, b: string)
    requires |a| == 3 && |b| == 3
    requires forall i :: 0 <= i < 3 ==> 'A' <= a[i] <= 'Z' && 'A' <= b[i] <= 'Z'
    requires a[0] < b[0] || (a[0] == b[0] && (a[1] < b[1] || (a[1] == b[1] && a[2] < b[2])))
    ensures CompareOrdinal(a, b) < 0
  {
    Utf16OfBmp(a);
    Utf16OfBmp(b);
    var x, y := Utf16(a), Utf16(b);
    assert x[1..][0] == x[1] && y[1..][0] == y[1];
    assert x[1..][1..] == x[2..] && y[1..][1..] == y[2..];
    if a[0] < b[0] {
      assert x[0] < y[0];
    } else if a[1] < b[1] {
      assert x[0] == y[0] && x[1] < y[1];
      assert CompareUnits(x[1..], y[1..]) == -1;
    } else {
      assert x[0] == y[0] && x[1] == y[1] && x[2] < y[2];
      assert CompareUnits(x[2..], y[2..]) == -1;
      assert CompareUnits(x[1..], y[1..]) == -1;
    }
    assert x != y && CompareUnits(x, y) == -1;
  }

  /** A code that is not in the table is not in the initial registry. */
  lemma NotAKnownCode(k: string)
    requires k !in KnownCodes
    ensures k !in Registered(map[], Known)
  {
    RegisteredLookup(map[], Known, k);
    KnownCodesMatch();
  }

  /** So no two of its currencies share a code. */
  lemma KnownFirstWithCode(i: nat)
    requires i < |Known|
    ensures FirstWithCode(Known, Known[i].code) == Some(Known[i])
  {
    KnownAscending();
    AscendingFirstWithCode(Known, i);
  }

  /** The numeric codes the lookup examples use belong to one currency each. */
  lemma KnownNumbers(c: Currency)
    requires c in Known
    ensures c.number == Some(978) ==> c == EUR
    ensures c.number == Some(51) ==> c == AMD
    ensures c.number != Some(1)
  {
  }

  /** `Get` in the initial registry finds a currency of the table by its code. */
  method GetKnownCode() returns (usd: Result<Currency, CurrencyError>)
    ensures usd == Ok(USD)
  {
    var catalog := new Catalog();
    RegisteredLookup(map[], Known, "USD");
    KnownFirstWithCode(16);
    assert !IsWhiteSpace("USD"[0]);
    usd := catalog.Get("USD");
  }

  /** Lookup by code is case-sensitive: "eur" is not found, although the
      doc comment of `Find` gives it as an example that finds the euro. */
  method FindIsCaseSensitive() returns (lower: Option<Currency>)
    ensures lower == None
  {
    var catalog := new Catalog();
    NotAKnownCode("eur");
    lower := catalog.Find("eur");
  }

  /** A blank code is an unknown currency. */
  method GetBlankCode() returns (blank: Result<Currency, CurrencyError>)
    ensures blank == Err(UnknownCurrency(" "))
  {
    var catalog := new Catalog();
    blank := catalog.Get(" ");
  }

  /** A currency of the table is among the values of the initial registry. */
  lemma InitialHolds(i: nat)
    requires i < |Known|
    ensures Known[i] in Registered(map[], Known).Values
  {
    RegisteredLookup(map[], Known, Known[i].code);
    KnownFirstWithCode(i);
    assert Registered(map[], Known)[Known[i].code] == Known[i];
  }

  /** What `Find(int)` needs of the initial registry: EUR and AMD are in it,
      each the only one with its number, and no currency has number 1. */
  lemma InitialNumbers()
    ensures EUR in Registered(map[], Known).Values && AMD in Registered(map[], Known).Values
    ensures forall c :: c in Registered(map[], Known).Values ==>
      (c.number == Some(978) ==> c == EUR) && (c.number == Some(51) ==> c == AMD) && c.number != Some(1)
  {
    InitialHolds(10);
    InitialHolds(1);
    InitialNumbersUnique();
  }

  lemma InitialNumbersUnique()
    ensures forall c :: c in Registered(map[], Known).Values ==>
      (c.number == Some(978) ==> c == EUR) && (c.number == Some(51) ==> c == AMD) && c.number != Some(1)
  {
    InitialRegistryOnlyTable();
    forall c | c in Registered(map[], Known).Values
      ensures (c.number == Some(978) ==> c == EUR) && (c.number == Some(51) ==> c == AMD) && c.number != Some(1)
    {
      KnownNumbers(c);
    }
  }

  /** `Find(int)` in the initial registry: 978 gives EUR and 51 gives AMD. */
  method FindKnownNumbers() returns (eur: Option<Currency>, amd: Option<Currency>)
    ensures eur == Some(EUR) && amd == Some(AMD)
  {
    var catalog := new Catalog();
    InitialNumbers();
    eur := catalog.FindNumber(978);
    amd := catalog.FindNumber(51);
  }

  /** `Find(int)` of a number no currency of the table has gives null. */
  method FindUnknownNumber() returns (none: Option<Currency>)
    ensures none == None
  {
    var catalog := new Catalog();
    InitialNumbers();
    none := catalog.FindNumber(1);
  }
}
