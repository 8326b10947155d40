/** Money values: an amount in minor units of a currency, with the equality
    and integer arithmetic the library's tests rely on, and the mutable
    object that carries the bank used for exchanges. */
module Monies {
  import opened Results
  import opened Currencies

  /** An amount of `fractional` minor units (cents, fils, öre) of `currency`. */
  datatype Money = Money(fractional: int, currency: Currency)

  /** Arithmetic between amounts of different currencies is refused; so is a
      division by zero. */
  datatype MoneyError = DifferentCurrency(from: string, to: string) | DivideByZero

  /** Two amounts are equal when their currencies are equal (same code) and
      their minor units agree. */
  function Equals(a: Money, b: Money): (r: bool)
    ensures r <==> a.fractional == b.fractional && Currencies.Equals(a.currency, Some(b.currency))
  {
    a.fractional == b.fractional && a.currency.code == b.currency.code
  }

  function NotEquals(a: Money, b: Money): (r: bool)
    ensures r <==> !Equals(a, b)
  {
    !(a.fractional == b.fractional && a.currency.code == b.currency.code)
  }

  /** Money equality is an equivalence relation. */
  lemma EqualsIsEquivalence(a: Money, b: Money, c: Money)
    ensures Equals(a, a)
    ensures Equals(a, b) == Equals(b, a)
    ensures Equals(a, b) && Equals(b, c) ==> Equals(a, c)
  {
  }

  /** The sum of two amounts of one currency. */
  function Add(a: Money, b: Money): (r: Result<Money, MoneyError>)
    ensures r.Ok? <==> a.currency.code == b.currency.code
    ensures r.Ok? ==> r.value.currency == a.currency && r.value.fractional - b.fractional == a.fractional
    ensures r.Err? ==> r.error == DifferentCurrency(a.currency.code, b.currency.code)
  {
    if a.currency.code != b.currency.code then Err(DifferentCurrency(a.currency.code, b.currency.code))
    else Ok(Money(a.fractional + b.fractional, a.currency))
  }

  /** The difference of two amounts of one currency. */
  function Subtract(a: Money, b: Money): (r: Result<Money, MoneyError>)
    ensures r.Ok? <==> a.currency.code == b.currency.code
    ensures r.Ok? ==> r.value.currency == a.currency && r.value.fractional + b.fractional == a.fractional
    ensures r.Err? ==> r.error == DifferentCurrency(a.currency.code, b.currency.code)
  {
    if a.currency.code != b.currency.code then Err(DifferentCurrency(a.currency.code, b.currency.code))
    else Ok(Money(a.fractional - b.fractional, a.currency))
  }

  /** Adding a raw number of minor units. */
  function AddUnits(a: Money, units: int): (r: Money)
    ensures r.currency == a.currency && r.fractional - units == a.fractional
  {
    Money(a.fractional + units, a.currency)
  }

  /** Subtracting a raw number of minor units. */
  function SubtractUnits(a: Money, units: int): (r: Money)
    ensures r.currency == a.currency && r.fractional + units == a.fractional
  {
    Money(a.fractional - units, a.currency)
  }

  function Multiply(a: Money, factor: int): (r: Money)
    ensures r.currency == a.currency && r.fractional == a.fractional * factor
  {
    Money(a.fractional * factor, a.currency)
  }

  /** Integer division truncating toward zero, as C# `/` on integers does:
      the remainder is smaller than the divisor and has the dividend's sign. */
  function Quotient(a: int, b: int): (q: int)
    requires b != 0
    ensures var rem := a - q * b;
      (if rem < 0 then -rem else rem) < (if b < 0 then -b else b)
      && (rem == 0 || (rem < 0) == (a < 0))
  {
    var aa := if a < 0 then -a else a;
    var bb := if b < 0 then -b else b;
    var m := aa / bb;
    var q := if (a < 0) == (b < 0) then m else -m;
    QuotientRemainder(a, b, aa, bb, m, q);
    q
  }

  /** The remainder of the signed quotient is that of the magnitudes, with
      the dividend's sign. */
  lemma QuotientRemainder(a: int, b: int, aa: nat, bb: nat, m: int, q: int)
    requires b != 0 && aa == (if a < 0 then -a else a) && bb == (if b < 0 then -b else b)
    requires m == aa / bb && q == (if (a < 0) == (b < 0) then m else -m)
    ensures 0 <= aa - m * bb < bb
    ensures a - q * b == (if a < 0 then -(aa - m * bb) else aa - m * bb)
  {
    if a < 0 {
      assert q * b == -(m * bb);
    } else {
      assert q * b == m * bb;
    }
  }

  /** Division by an integer, truncating toward zero; dividing by zero fails. */
  function Divide(a: Money, divisor: int): (r: Result<Money, MoneyError>)
    ensures r.Err? <==> divisor == 0
    ensures r.Err? ==> r.error == DivideByZero
    ensures r.Ok? ==> r.value.currency == a.currency && r.value.fractional == Quotient(a.fractional, divisor)
  {
    if divisor == 0 then Err(DivideByZero) else Ok(Money(Quotient(a.fractional, divisor), a.currency))
  }

  /** Division undoes multiplication exactly. */
  lemma DivideUndoesMultiply(a: Money, k: int)
    requires k != 0
    ensures Divide(Multiply(a, k), k) == Ok(a)
  {
    var q := Quotient(a.fractional * k, k);
    var rem := a.fractional * k - q * k;
    assert rem == (a.fractional - q) * k;
    if q != a.fractional {
      var d := a.fractional - q;
      AbsProduct(d, k);
    }
  }

  /** A nonzero multiple of `k` is at least as large as `k` in magnitude. */
  lemma AbsProduct(d: int, k: int)
    requires d != 0 && k != 0
    ensures var p := d * k; (if p < 0 then -p else p) >= (if k < 0 then -k else k)
  {
    var ad := if d < 0 then -d else d;
    var ak := if k < 0 then -k else k;
    assert (if d * k < 0 then -(d * k) else d * k) == ad * ak;
    assert ad * ak >= 1 * ak;
  }

  /** Subtracting what was added gives back the original amount. */
  lemma SubtractUndoesAdd(a: Money, b: Money)
    requires a.currency.code == b.currency.code
    ensures Subtract(Add(a, b).value, b) == Ok(a)
  {
  }

  lemma SubtractUnitsUndoesAddUnits(a: Money, units: int)
    ensures SubtractUnits(AddUnits(a, units), units) == a
  {
  }

  /** Adding zero, as an amount of the same currency or as a raw number, changes nothing. */
  lemma AddZero(a: Money)
    ensures Add(a, Money(0, a.currency)) == Ok(a)
    ensures AddUnits(a, 0) == a
  {
  }

  /** Adding a raw number is adding an amount of the same currency. */
  lemma AddUnitsIsAdd(a: Money, units: int)
    ensures Add(a, Money(units, a.currency)) == Ok(AddUnits(a, units))
  {
  }

  /** The worked examples of the arithmetic: 1000 + 500, 1000 - 200, 1000 / 2,
      1000 * 5 minor units of USD, and the equalities between SEK and USD amounts. */
  lemma ArithmeticExamples()
    ensures Add(Money(1000, USD), Money(500, USD)) == Ok(Money(1500, USD))
    ensures AddUnits(Money(1000, USD), 500) == Money(1500, USD)
    ensures Subtract(Money(1000, USD), Money(200, USD)) == Ok(Money(800, USD))
    ensures SubtractUnits(Money(1000, USD), 200) == Money(800, USD)
    ensures Divide(Money(1000, USD), 2) == Ok(Money(500, USD))
    ensures Multiply(Money(1000, USD), 5) == Money(5000, USD)
    ensures Add(Money(1000, SEK), Money(1000, USD)).Err?
    ensures Equals(Money(1000, SEK), Money(1000, SEK)) && !Equals(Money(1000, SEK), Money(1000, USD))
    ensures NotEquals(Money(1000, SEK), Money(100, SEK)) && !NotEquals(Money(1000, SEK), Money(1000, SEK))
  {
    var q := Quotient(1000, 2);
    assert q * 2 == 1000 by {
      assert -2 < 1000 - q * 2 < 2;
    }
  }

  /** The kinds of bank an amount can carry. */
  datatype BankKind = VariableExchangeBank | SingleCurrencyBank

  /** The money object: its amount never changes, its bank can be replaced. */
  class MoneyObject {
    const value: Money
    var bank: BankKind

    /** A new money object carries a variable-exchange bank. */
    constructor (value: Money)
      ensures this.value == value && bank == VariableExchangeBank
    {
      this.value := value;
      bank := VariableExchangeBank;
    }

    /** `SetBank` replaces the bank and returns the same object. */
    method SetBank(newBank: BankKind) returns (r: MoneyObject)
      modifies this
      ensures r == this && bank == newBank
    {
      bank := newBank;
      return this;
    }
  }
}
