/** The variable-exchange bank: a table of directed rates filed under their
    pair keys, lookup by currency pair, and the exchange of an amount into
    another currency at the stored rate. */
module Exchange {
  import opened Results
  import opened Currencies
  import opened Monies
  import opened Rates

  datatype BankError = UnknownRate(from: string, to: string)

  /** A rate table is well formed when every rate is filed under its own key. */
  ghost predicate WellKeyed(items: map<string, Rate>)
  {
    forall k :: k in items ==> Key(items[k]) == k
  }

  /** The table after `SetRate`: the rate's key now holds the rate, whether
      or not the key was present, and no other key changes. */
  function WithRate(items: map<string, Rate>, rate: Rate): (r: map<string, Rate>)
    ensures Key(rate) in r && r[Key(rate)] == rate
    ensures forall k :: k != Key(rate) ==> (k in r <==> k in items) && (k in items ==> r[k] == items[k])
    ensures WellKeyed(items) ==> WellKeyed(r)
  {
    items[Key(rate) := rate]
  }

  /** `Get`: the rate filed under the key of (`from`, `to`), or null. */
  function Lookup(items: map<string, Rate>, from: Currency, to: Currency): (r: Option<Rate>)
    ensures r.Some? <==> PairKey(from.code, to.code) in items
    ensures r.Some? ==> r.value == items[PairKey(from.code, to.code)]
    ensures r.Some? ==> r.value in items.Values
  {
    var k := PairKey(from.code, to.code);
    if k !in items then None else Some(items[k])
  }

  /** In a well-formed table the rate found is filed under the pair's key,
      so it is the rate of the pair when the codes have no '_'. */
  lemma FiledUnderPair(items: map<string, Rate>, from: Currency, to: Currency)
    ensures var r := Lookup(items, from, to);
      WellKeyed(items) && r.Some? ==> Key(r.value) == PairKey(from.code, to.code)
    ensures var r := Lookup(items, from, to);
      WellKeyed(items) && r.Some? && '_' !in from.code && '_' !in r.value.from.code ==>
        r.value.from.code == from.code && r.value.to.code == to.code
  {
    var k := PairKey(from.code, to.code);
    if k in items && WellKeyed(items) {
      var r := items[k];
      assert Key(r) == k;
      if '_' !in from.code && '_' !in r.from.code {
        PairKeyInjective(r.from.code, r.to.code, from.code, to.code);
      }
    }
  }

  /** After a rate is added, looking up its pair gives that rate. */
  lemma LookupAfterAdd(items: map<string, Rate>, from: Currency, to: Currency, value: real)
    ensures Lookup(WithRate(items, Rate(from, to, value)), from, to) == Some(Rate(from, to, value))
  {
  }

  /** Adding a rate leaves the lookup of every other pair as it was, when
      the codes have no '_'. */
  lemma LookupOtherPair(items: map<string, Rate>, rate: Rate, from: Currency, to: Currency)
    requires '_' !in rate.from.code && '_' !in from.code
    requires rate.from.code != from.code || rate.to.code != to.code
    ensures Lookup(WithRate(items, rate), from, to) == Lookup(items, from, to)
  {
    if PairKey(from.code, to.code) == Key(rate) {
      PairKeyInjective(from.code, to.code, rate.from.code, rate.to.code);
    }
  }

  /** Rates are directed: adding (from, to) provides nothing for (to, from). */
  lemma RatesAreDirected(items: map<string, Rate>, from: Currency, to: Currency, value: real)
    requires '_' !in from.code && '_' !in to.code && from.code != to.code
    requires Lookup(items, to, from).None?
    ensures Lookup(WithRate(items, Rate(from, to, value)), to, from).None?
  {
    LookupOtherPair(items, Rate(from, to, value), to, from);
  }

  /** Adding a rate for a pair already present replaces it: the table keeps
      one entry for the key, holding the newest rate, and its size stays. */
  lemma ReAddReplaces(items: map<string, Rate>, rate: Rate)
    requires Key(rate) in items
    ensures |WithRate(items, rate)| == |items|
    ensures WithRate(items, rate)[Key(rate)] == rate
  {
    assert WithRate(items, rate).Keys == items.Keys;
  }

  /** A rate for a new pair adds exactly one entry. */
  lemma AddNewGrows(items: map<string, Rate>, rate: Rate)
    requires Key(rate) !in items
    ensures |WithRate(items, rate)| == |items| + 1
  {
    assert WithRate(items, rate).Keys == items.Keys + {Key(rate)};
  }

  /** `Fractional`: the amount in minor units of `to`, the minor units of
      the amount rescaled by the ratio of the two currencies' minor units
      per unit. */
  function Fractional(m: Money, to: Currency): (r: real)
    requires m.currency.subUnitToUnit > 0 && to.subUnitToUnit > 0
    ensures m.currency.subUnitToUnit == to.subUnitToUnit ==> r == m.fractional as real
  {
    var ratio := (m.currency.subUnitToUnit as real) / (to.subUnitToUnit as real);
    (m.fractional as real) / ratio
  }

  /** The rescaled amount is worth as much as the original: counted in units
      of either currency the two agree. */
  lemma FractionalScales(m: Money, to: Currency)
    requires m.currency.subUnitToUnit > 0 && to.subUnitToUnit > 0
    ensures Fractional(m, to) * (m.currency.subUnitToUnit as real) == (m.fractional as real) * (to.subUnitToUnit as real)
  {
    var a, b, f := m.currency.subUnitToUnit as real, to.subUnitToUnit as real, m.fractional as real;
    assert Fractional(m, to) == f / (a / b);
    assert f / (a / b) * a == f * b;
  }

  /** The cast of a `decimal` to `long`: the integer part, the fraction cut
      off toward zero. */
  function Truncate(x: real): (t: int)
    ensures x >= 0.0 ==> t as real <= x < t as real + 1.0
    ensures x < 0.0 ==> t as real - 1.0 < x <= t as real
  {
    if x >= 0.0 then x.Floor else -((-x).Floor)
  }

  /** `Exchange` on a rate table: an unknown rate for the pair is an error;
      otherwise the amount, rescaled to the target's minor units and
      multiplied by the rate, truncated, in the target currency. */
  function ExchangeIn(items: map<string, Rate>, m: Money, to: Currency): (r: Result<Money, BankError>)
    requires m.currency.subUnitToUnit > 0 && to.subUnitToUnit > 0
    ensures r.Err? <==> Lookup(items, m.currency, to).None?
    ensures r.Err? ==> r.error == UnknownRate(m.currency.code, to.code)
    ensures r.Ok? ==> r.value.currency == to
    ensures r.Ok? ==>
      var exact := Fractional(m, to) * Lookup(items, m.currency, to).value.value;
      && (exact >= 0.0 ==> r.value.fractional as real <= exact < r.value.fractional as real + 1.0)
      && (exact < 0.0 ==> r.value.fractional as real - 1.0 < exact <= r.value.fractional as real)
  {
    match Lookup(items, m.currency, to)
    case None => Err(UnknownRate(m.currency.code, to.code))
    case Some(rate) =>
      var exact := Fractional(m, to) * rate.value;
      var t := Truncate(exact);
      Ok(Money(t, to))
  }

  /** Exchanging at a rate of one between currencies of equal minor units
      keeps the amount. */
  lemma ExchangeAtParity(items: map<string, Rate>, m: Money, to: Currency)
    requires m.currency.subUnitToUnit > 0 && m.currency.subUnitToUnit == to.subUnitToUnit
    requires Lookup(items, m.currency, to) == Some(Rate(m.currency, to, 1.0))
    ensures ExchangeIn(items, m, to) == Ok(Money(m.fractional, to))
  {
  }

  /** The rates of the bank's worked example. */
  function ExampleRates(): (items: map<string, Rate>)
    ensures WellKeyed(items)
  {
    WithRate(WithRate(map[], Rate(USD, CAD, 1.24515)), Rate(CAD, USD, 0.803115))
  }

  /** 100 dollars at 1.24515 give 124.51 Canadian dollars, 100 Canadian
      dollars at 0.803115 give 80.31 dollars; with no rate stored, the
      exchange fails. */
  lemma ExchangeExamples()
    ensures ExchangeIn(ExampleRates(), Money(10000, USD), CAD) == Ok(Money(12451, CAD))
    ensures ExchangeIn(ExampleRates(), Money(10000, CAD), USD) == Ok(Money(8031, USD))
    ensures ExchangeIn(map[], Money(10000, USD), CAD) == Err(UnknownRate("USD", "CAD"))
  {
    var items := ExampleRates();
    LookupAfterAdd(map[], USD, CAD, 1.24515);
    LookupOtherPair(WithRate(map[], Rate(USD, CAD, 1.24515)), Rate(CAD, USD, 0.803115), USD, CAD);
    LookupAfterAdd(WithRate(map[], Rate(USD, CAD, 1.24515)), CAD, USD, 0.803115);
    assert Fractional(Money(10000, USD), CAD) == 10000.0;
    assert Fractional(Money(10000, CAD), USD) == 10000.0;
    assert Truncate(10000.0 * 1.24515) == 12451;
    assert Truncate(10000.0 * 0.803115) == 8031;
  }

  /** The bank: the rate table every variable-exchange bank shares. */
  class VariableExchange {
    var items: map<string, Rate>

    ghost predicate Valid()
      reads this
    {
      WellKeyed(items)
    }

    /** The table as the program starts: no rates. */
    constructor ()
      ensures Valid() && items == map[]
    {
      items := map[];
    }

    /** `Rates`: the table itself. */
    function Rates(): (r: map<string, Rate>)
      reads this
      ensures Valid() ==> forall k :: k in r ==> Key(r[k]) == k
    {
      items
    }

    /** `SetRate`: files the rate under its key, replacing any rate there. */
    method SetRate(rate: Rate)
      modifies this
      ensures items == WithRate(old(items), rate)
      ensures old(Valid()) ==> Valid()
    {
      items := items[Key(rate) := rate];
    }

    /** `AddRate`: sets the rate from `from` to `to`. */
    method AddRate(from: Currency, to: Currency, value: real)
      modifies this
      ensures items == WithRate(old(items), Rate(from, to, value))
      ensures Get(from, to) == Some(Rate(from, to, value))
      ensures old(Valid()) ==> Valid()
    {
      SetRate(Rate(from, to, value));
    }

    /** `Get`: the rate stored for the pair, or null. */
    function Get(from: Currency, to: Currency): (r: Option<Rate>)
      reads this
      ensures r.Some? <==> PairKey(from.code, to.code) in items
      ensures r.Some? ==> r.value == items[PairKey(from.code, to.code)]
      ensures Valid() && r.Some? ==> Key(r.value) == PairKey(from.code, to.code)
    {
      FiledUnderPair(items, from, to);
      Lookup(items, from, to)
    }

    /** `Exchange`: reads the table and converts; the table is unchanged. */
    function Exchange(m: Money, to: Currency): (r: Result<Money, BankError>)
      reads this
      requires m.currency.subUnitToUnit > 0 && to.subUnitToUnit > 0
      ensures r.Err? <==> Get(m.currency, to).None?
      ensures r.Ok? ==> r.value.currency == to
    {
      ExchangeIn(items, m, to)
    }
  }

  /** The exchange test: with no rates the exchange fails; after both rates
      are added, 100 dollars give 124.51 Canadian dollars and 100 Canadian
      dollars give 80.31 dollars; re-adding a rate keeps one entry per pair. */
  method ShouldExchangeCurrencies() returns (missing: Result<Money, BankError>,
                                             cad: Result<Money, BankError>,
                                             usd: Result<Money, BankError>,
                                             entries: nat)
    ensures missing == Err(UnknownRate("USD", "CAD"))
    ensures cad == Ok(Money(12451, CAD)) && usd == Ok(Money(8031, USD))
    ensures entries == 2
  {
    var bank := new VariableExchange();
    missing := bank.Exchange(Money(10000, USD), CAD);
    bank.AddRate(USD, CAD, 1.24515);
    bank.AddRate(CAD, USD, 0.803115);
    assert bank.items == ExampleRates();
    ExchangeExamples();
    cad := bank.Exchange(Money(10000, USD), CAD);
    usd := bank.Exchange(Money(10000, CAD), USD);
    ReAddReplaces(bank.items, Rate(CAD, USD, 0.803115));
    AddNewGrows(map[], Rate(USD, CAD, 1.24515));
    AddNewGrows(WithRate(map[], Rate(USD, CAD, 1.24515)), Rate(CAD, USD, 0.803115));
    bank.AddRate(CAD, USD, 0.803115);
    entries := |bank.Rates()|;
  }

  /** The bank test of the money object: two rates added to an empty table
      make two entries, and each is returned for its own pair. */
  method ShouldAddRateOnBank() returns (count: nat, sekUsd: Option<Rate>, usdSek: Option<Rate>)
    ensures count == 2
    ensures sekUsd == Some(Rate(SEK, USD, 0.109133))
    ensures usdSek == Some(Rate(USD, SEK, 9.16479))
  {
    var bank := new VariableExchange();
    bank.AddRate(SEK, USD, 0.109133);
    AddNewGrows(map[], Rate(SEK, USD, 0.109133));
    var first := bank.items;
    bank.AddRate(USD, SEK, 9.16479);
    AddNewGrows(first, Rate(USD, SEK, 9.16479));
    LookupOtherPair(first, Rate(USD, SEK, 9.16479), SEK, USD);
    count := |bank.Rates()|;
    sekUsd := bank.Get(SEK, USD);
    usdSek := bank.Get(USD, SEK);
  }
}
