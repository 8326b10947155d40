/** The four layouts of a non-negative currency amount, '$' standing for the
    currency symbol and 'n' for the number; the table is .NET's
    CurrencyPositivePattern. */
module PositivePositions {
  import opened Results
  import opened Text

  datatype PositivePosition = Before | After | BeforeWithSpace | AfterWithSpace

  /** The enum member's numeric value. */
  function Ordinal(p: PositivePosition): (i: nat)
    ensures i < 4
    ensures FromOrdinal(i) == Some(p)
  {
    match p
    case Before => 0
    case After => 1
    case BeforeWithSpace => 2
    case AfterWithSpace => 3
  }

  /** The member with numeric value `i`, if there is one. */
  function FromOrdinal(i: int): (r: Option<PositivePosition>)
    ensures r.Some? <==> 0 <= i < 4
  {
    if i == 0 then Some(Before)
    else if i == 1 then Some(After)
    else if i == 2 then Some(BeforeWithSpace)
    else if i == 3 then Some(AfterWithSpace)
    else None
  }

  /** The pattern of the member's description. */
  function Description(p: PositivePosition): string
  {
    match p
    case Before => "$n"
    case After => "n$"
    case BeforeWithSpace => "$ n"
    case AfterWithSpace => "n $"
  }

  predicate SymbolFirst(p: PositivePosition)
  {
    p == Before || p == BeforeWithSpace
  }

  predicate WithSpace(p: PositivePosition)
  {
    p == BeforeWithSpace || p == AfterWithSpace
  }

  /** A non-negative amount laid out with `symbol` and `number` filled in. */
  function Render(symbolFirst: bool, spaced: bool, symbol: string, number: string): string
  {
    var gap := if spaced then " " else "";
    if symbolFirst then symbol + gap + number else number + gap + symbol
  }

  /** Each description is the rendering of its two choices with the
      placeholders themselves as symbol and number. */
  lemma DescriptionIsLayout(p: PositivePosition)
    ensures Description(p) == Render(SymbolFirst(p), WithSpace(p), "$", "n")
  {
    match p
    case Before => assert Description(Before) == Render(true, false, "$", "n");
    case After => assert Description(After) == Render(false, false, "$", "n");
    case BeforeWithSpace => assert Description(BeforeWithSpace) == Render(true, true, "$", "n");
    case AfterWithSpace => assert Description(AfterWithSpace) == Render(false, true, "$", "n");
  }

  /** The four members are the four combinations of the two choices. */
  lemma ChoicesDetermineMember(p: PositivePosition, q: PositivePosition)
    ensures (SymbolFirst(p) == SymbolFirst(q) && WithSpace(p) == WithSpace(q)) <==> p == q
  {
  }

  /** How often `ch` occurs in a rendering whose symbol and number lack it. */
  lemma RenderCount(symbolFirst: bool, spaced: bool, symbol: string, number: string, ch: char)
    ensures Count(Render(symbolFirst, spaced, symbol, number), ch) ==
      Count(symbol, ch) + Count(number, ch) + (if ch == ' ' && spaced then 1 else 0)
  {
    var gap := if spaced then " " else "";
    if symbolFirst {
      CountAppend(symbol, gap, ch);
      CountAppend(symbol + gap, number, ch);
    } else {
      CountAppend(number, gap, ch);
      CountAppend(number + gap, symbol, ch);
    }
  }

  /** Every pattern holds the symbol once, the number once, no sign or
      parenthesis, and a space exactly when the member says WithSpace. */
  lemma OneSymbolOneNumberNoSign(p: PositivePosition)
    ensures var d := Description(p);
      Count(d, '$') == 1 && Count(d, 'n') == 1 && '-' !in d && '(' !in d && ')' !in d &&
      Count(d, ' ') == if WithSpace(p) then 1 else 0
  {
    DescriptionIsLayout(p);
    RenderCount(SymbolFirst(p), WithSpace(p), "$", "n", '$');
    RenderCount(SymbolFirst(p), WithSpace(p), "$", "n", 'n');
    RenderCount(SymbolFirst(p), WithSpace(p), "$", "n", '-');
    RenderCount(SymbolFirst(p), WithSpace(p), "$", "n", '(');
    RenderCount(SymbolFirst(p), WithSpace(p), "$", "n", ')');
    RenderCount(SymbolFirst(p), WithSpace(p), "$", "n", ' ');
  }

  /** Before and BeforeWithSpace open with the symbol and end with the number;
      After and AfterWithSpace the other way round. */
  lemma SymbolPlacement(p: PositivePosition)
    ensures var d := Description(p);
      if SymbolFirst(p) then d[0] == '$' && d[|d| - 1] == 'n' else d[0] == 'n' && d[|d| - 1] == '$'
  {
    DescriptionIsLayout(p);
  }

  /** The layout a WithSpace layout becomes when its space is deleted. */
  function Unspaced(p: PositivePosition): (q: PositivePosition)
    ensures !WithSpace(q) && SymbolFirst(q) == SymbolFirst(p)
    ensures !WithSpace(p) ==> q == p
  {
    match p
    case Before => Before
    case After => After
    case BeforeWithSpace => Before
    case AfterWithSpace => After
  }

  /** Deleting the spaces of a rendering whose symbol and number hold none gives the unspaced rendering. */
  lemma RenderWithoutSpace(symbolFirst: bool, spaced: bool, symbol: string, number: string)
    requires ' ' !in symbol && ' ' !in number
    ensures Without(Render(symbolFirst, spaced, symbol, number), ' ') == Render(symbolFirst, false, symbol, number)
  {
    var gap := if spaced then " " else "";
    WithoutAbsent(symbol, ' ');
    WithoutAbsent(number, ' ');
    assert Without(gap, ' ') == "";
    if symbolFirst {
      WithoutAppend(symbol, gap, ' ');
      WithoutAppend(symbol + gap, number, ' ');
      assert symbol + "" == symbol;
    } else {
      WithoutAppend(number, gap, ' ');
      WithoutAppend(number + gap, symbol, ' ');
      assert number + "" == number;
    }
  }

  /** Deleting the space of a pattern gives its unspaced member's pattern. */
  lemma SpaceDeleted(p: PositivePosition)
    ensures Without(Description(p), ' ') == Description(Unspaced(p))
  {
    DescriptionIsLayout(p);
    DescriptionIsLayout(Unspaced(p));
    RenderWithoutSpace(SymbolFirst(p), WithSpace(p), "$", "n");
  }

  /** Filling the placeholders of a pattern renders it. */
  lemma SubstitutedDescription(p: PositivePosition, symbol: string, number: string)
    ensures Substitute(Description(p), symbol, number) == Render(SymbolFirst(p), WithSpace(p), symbol, number)
  {
    DescriptionIsLayout(p);
    var gap := if WithSpace(p) then " " else "";
    if SymbolFirst(p) {
      SubstituteAppend("$", gap, symbol, number);
      SubstituteAppend("$" + gap, "n", symbol, number);
    } else {
      SubstituteAppend("n", gap, symbol, number);
      SubstituteAppend("n" + gap, "$", symbol, number);
    }
  }
}
