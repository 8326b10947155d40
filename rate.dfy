/** Exchange rates: a directed rate from one currency to another, and the
    text key under which the rate table files it. */
module Rates {
  import opened Results
  import opened Currencies

  /** One unit of `from` is worth `value` units of `to`. The rate is a
      `decimal`, exact base-10 arithmetic, which `real` models exactly. */
  datatype Rate = Rate(from: Currency, to: Currency, value: real)

  /** The key of the pair (`from`, `to`): the two codes joined by '_'. */
  function PairKey(from: string, to: string): (k: string)
    ensures |k| == |from| + 1 + |to|
  {
    from + "_" + to
  }

  /** `Rate.ToString`: the key of the rate's currency pair. */
  function Key(r: Rate): (k: string)
    ensures '_' !in r.from.code ==> SplitKey(k) == Some((r.from.code, r.to.code))
  {
    if '_' in r.from.code then PairKey(r.from.code, r.to.code)
    else
      SplitKeyOfPairKey(r.from.code, r.to.code);
      PairKey(r.from.code, r.to.code)
  }

  /** Reading a key back: the text before the first '_' and the text after it. */
  function SplitKey(k: string): (r: Option<(string, string)>)
    ensures r.None? <==> '_' !in k
    ensures r.Some? ==> '_' !in r.value.0 && PairKey(r.value.0, r.value.1) == k
  {
    if k == [] then None
    else if k[0] == '_' then
      assert k == [] + "_" + k[1..];
      Some(([], k[1..]))
    else
      match SplitKey(k[1..])
      case None =>
        assert k == [k[0]] + k[1..];
        None
      case Some((a, b)) =>
        assert k == [k[0]] + k[1..];
        assert [k[0]] + a + "_" + b == [k[0]] + (a + "_" + b);
        Some(([k[0]] + a, b))
  }

  /** For a code without '_' the key splits back into the pair it was made of. */
  lemma {:induction false} SplitKeyOfPairKey(from: string, to: string)
    requires '_' !in from
    ensures SplitKey(PairKey(from, to)) == Some((from, to))
  {
    var k := PairKey(from, to);
    if from == [] {
      assert k[0] == '_' && k[1..] == to;
    } else {
      assert k[0] == from[0] && k[1..] == PairKey(from[1..], to);
      SplitKeyOfPairKey(from[1..], to);
      assert [from[0]] + from[1..] == from;
    }
  }

  /** The key determines the ordered pair when the first code has no '_'. */
  lemma PairKeyInjective(a: string, b: string, c: string, d: string)
    requires '_' !in a && '_' !in c
    requires PairKey(a, b) == PairKey(c, d)
    ensures a == c && b == d
  {
    SplitKeyOfPairKey(a, b);
    SplitKeyOfPairKey(c, d);
  }

  /** The key depends on the pair only: two rates of one pair share it,
      whatever their values. */
  lemma KeyIgnoresValue(r: Rate, value: real)
    ensures Key(r.(value := value)) == Key(r)
  {
  }

  /** Keys are directed: the reversed pair of distinct codes has a
      different key, so "USD_CAD" and "CAD_USD" are two entries. */
  lemma KeyIsDirected(a: string, b: string)
    requires '_' !in a && '_' !in b && a != b
    ensures PairKey(a, b) != PairKey(b, a)
  {
    if PairKey(a, b) == PairKey(b, a) {
      PairKeyInjective(a, b, b, a);
    }
  }

  lemma KeyExamples()
    ensures Key(Rate(USD, CAD, 1.24515)) == "USD_CAD"
    ensures Key(Rate(CAD, USD, 0.803115)) == "CAD_USD"
  {
    assert USD.code == "USD" && CAD.code == "CAD";
    assert PairKey("USD", "CAD") == "USD_CAD" && PairKey("CAD", "USD") == "CAD_USD";
  }
}
