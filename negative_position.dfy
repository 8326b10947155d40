/** The sixteen layouts of a negative currency amount. Each member carries a
    pattern in which '$' stands for the currency symbol, 'n' for the number and
    '-' for the negative sign; the table is .NET's CurrencyNegativePattern. */
module NegativePositions {
  import opened Results
  import opened Text

  datatype NegativePosition =
    | Zero | One | Two | Three | Four | Five | Six | Seven
    | Eight | Nine | Ten | Eleven | Twelve | Thirteen | Fourteen | Fifteen

  /** The enum member's numeric value. */
  function Ordinal(p: NegativePosition): (i: nat)
    ensures i < 16
    ensures FromOrdinal(i) == Some(p)
  {
    match p
    case Zero => 0 case One => 1 case Two => 2 case Three => 3
    case Four => 4 case Five => 5 case Six => 6 case Seven => 7
    case Eight => 8 case Nine => 9 case Ten => 10 case Eleven => 11
    case Twelve => 12 case Thirteen => 13 case Fourteen => 14 case Fifteen => 15
  }

  /** The member with numeric value `i`, if there is one. */
  function FromOrdinal(i: int): (r: Option<NegativePosition>)
    ensures r.Some? <==> 0 <= i < 16
  {
    if i == 0 then Some(Zero) else if i == 1 then Some(One)
    else if i == 2 then Some(Two) else if i == 3 then Some(Three)
    else if i == 4 then Some(Four) else if i == 5 then Some(Five)
    else if i == 6 then Some(Six) else if i == 7 then Some(Seven)
    else if i == 8 then Some(Eight) else if i == 9 then Some(Nine)
    else if i == 10 then Some(Ten) else if i == 11 then Some(Eleven)
    else if i == 12 then Some(Twelve) else if i == 13 then Some(Thirteen)
    else if i == 14 then Some(Fourteen) else if i == 15 then Some(Fifteen)
    else None
  }

  /** The values 0 to 15 are numbered without gaps: each names exactly one member. */
  lemma OrdinalsAreDense(i: int)
    requires 0 <= i < 16
    ensures FromOrdinal(i).Some? && Ordinal(FromOrdinal(i).value) == i
  {
  }

  /** The pattern of the member's description. */
  function Description(p: NegativePosition): string
  {
    match p
    case Zero => "($n)"
    case One => "-$n"
    case Two => "$-n"
    case Three => "$n-"
    case Four => "(n$)"
    case Five => "-n$"
    case Six => "n-$"
    case Seven => "n$-"
    case Eight => "-n $"
    case Nine => "-$ n"
    case Ten => "n $-"
    case Eleven => "$ n-"
    case Twelve => "$ -n"
    case Thirteen => "n- $"
    case Fourteen => "($ n)"
    case Fifteen => "(n $)"
  }

  /** Where a layout marks the amount as negative: parentheses around the
      whole, a sign before the whole, a sign right beside the number (on the
      side away from the symbol), or a sign after the whole. */
  datatype SignPlacement = Parentheses | Leading | BesideNumber | Trailing

  /** The three independent choices a layout makes. */
  datatype Layout = Layout(symbolFirst: bool, sign: SignPlacement, spaced: bool)

  function LayoutOf(p: NegativePosition): Layout
  {
    match p
    case Zero => Layout(true, Parentheses, false)
    case One => Layout(true, Leading, false)
    case Two => Layout(true, BesideNumber, false)
    case Three => Layout(true, Trailing, false)
    case Four => Layout(false, Parentheses, false)
    case Five => Layout(false, Leading, false)
    case Six => Layout(false, BesideNumber, false)
    case Seven => Layout(false, Trailing, false)
    case Eight => Layout(false, Leading, true)
    case Nine => Layout(true, Leading, true)
    case Ten => Layout(false, Trailing, true)
    case Eleven => Layout(true, Trailing, true)
    case Twelve => Layout(true, BesideNumber, true)
    case Thirteen => Layout(false, BesideNumber, true)
    case Fourteen => Layout(true, Parentheses, true)
    case Fifteen => Layout(false, Parentheses, true)
  }

  /** The number with the sign attached when the sign stands beside it. */
  function Signed(l: Layout, number: string): string
  {
    if l.sign != BesideNumber then number
    else if l.symbolFirst then "-" + number
    else number + "-"
  }

  function Gap(l: Layout): string
  {
    if l.spaced then " " else ""
  }

  /** Symbol and signed number in the layout's order, with the gap between. */
  function Core(l: Layout, symbol: string, number: string): string
  {
    if l.symbolFirst then symbol + Gap(l) + Signed(l, number)
    else Signed(l, number) + Gap(l) + symbol
  }

  /** The core with the negative marker placed around or beside it. */
  function Wrap(sign: SignPlacement, core: string): string
  {
    match sign
    case Parentheses => "(" + core + ")"
    case Leading => "-" + core
    case BesideNumber => core
    case Trailing => core + "-"
  }

  /** A negative amount laid out with `symbol` and `number` filled in. */
  function Render(l: Layout, symbol: string, number: string): string
  {
    Wrap(l.sign, Core(l, symbol, number))
  }

  /** Each description is the rendering of its layout with the placeholders
      themselves as symbol and number. */
  lemma DescriptionIsLayout(p: NegativePosition)
    ensures Description(p) == Render(LayoutOf(p), "$", "n")
  {
    match p
    case Zero => assert Description(Zero) == Render(LayoutOf(Zero), "$", "n");
    case One => assert Description(One) == Render(LayoutOf(One), "$", "n");
    case Two => assert Description(Two) == Render(LayoutOf(Two), "$", "n");
    case Three => assert Description(Three) == Render(LayoutOf(Three), "$", "n");
    case Four => assert Description(Four) == Render(LayoutOf(Four), "$", "n");
    case Five => assert Description(Five) == Render(LayoutOf(Five), "$", "n");
    case Six => assert Description(Six) == Render(LayoutOf(Six), "$", "n");
    case Seven => assert Description(Seven) == Render(LayoutOf(Seven), "$", "n");
    case Eight => assert Description(Eight) == Render(LayoutOf(Eight), "$", "n");
    case Nine => assert Description(Nine) == Render(LayoutOf(Nine), "$", "n");
    case Ten => assert Description(Ten) == Render(LayoutOf(Ten), "$", "n");
    case Eleven => assert Description(Eleven) == Render(LayoutOf(Eleven), "$", "n");
    case Twelve => assert Description(Twelve) == Render(LayoutOf(Twelve), "$", "n");
    case Thirteen => assert Description(Thirteen) == Render(LayoutOf(Thirteen), "$", "n");
    case Fourteen => assert Description(Fourteen) == Render(LayoutOf(Fourteen), "$", "n");
    case Fifteen => assert Description(Fifteen) == Render(LayoutOf(Fifteen), "$", "n");
  }

  /** The sixteen members are the sixteen combinations of the three choices. */
  lemma LayoutsAreDistinct(p: NegativePosition, q: NegativePosition)
    ensures LayoutOf(p) == LayoutOf(q) <==> p == q
  {
  }

  lemma LayoutsAreExhaustive(l: Layout)
    ensures exists p :: LayoutOf(p) == l
  {
    var p :=
      match (l.symbolFirst, l.sign, l.spaced)
      case (true, Parentheses, false) => Zero
      case (true, Leading, false) => One
      case (true, BesideNumber, false) => Two
      case (true, Trailing, false) => Three
      case (false, Parentheses, false) => Four
      case (false, Leading, false) => Five
      case (false, BesideNumber, false) => Six
      case (false, Trailing, false) => Seven
      case (false, Leading, true) => Eight
      case (true, Leading, true) => Nine
      case (false, Trailing, true) => Ten
      case (true, Trailing, true) => Eleven
      case (true, BesideNumber, true) => Twelve
      case (false, BesideNumber, true) => Thirteen
      case (true, Parentheses, true) => Fourteen
      case (false, Parentheses, true) => Fifteen;
    assert LayoutOf(p) == l;
  }

  /** The layouts that mark a negative amount with parentheses instead of a sign. */
  predicate Parenthesized(p: NegativePosition)
  {
    p == Zero || p == Four || p == Fourteen || p == Fifteen
  }

  /** The layouts with a space between symbol and number. */
  predicate Spaced(p: NegativePosition)
  {
    Ordinal(p) >= 8
  }

  /** How often `ch` occurs in the signed number, when the number lacks it. */
  lemma SignedCount(l: Layout, number: string, ch: char)
    requires ch !in number
    ensures Count(Signed(l, number), ch) == if ch == '-' && l.sign == BesideNumber then 1 else 0
  {
    if l.sign == BesideNumber {
      if l.symbolFirst {
        CountAppend("-", number, ch);
      } else {
        CountAppend(number, "-", ch);
      }
    }
  }

  /** How often `ch` occurs in the core, when neither symbol nor number holds it. */
  lemma CoreCount(l: Layout, symbol: string, number: string, ch: char)
    requires ch !in symbol && ch !in number
    ensures Count(Core(l, symbol, number), ch) ==
      (if ch == '-' && l.sign == BesideNumber then 1 else 0) + (if ch == ' ' && l.spaced then 1 else 0)
  {
    SignedCount(l, number, ch);
    var s := Signed(l, number);
    if l.symbolFirst {
      CountAppend(symbol, Gap(l), ch);
      CountAppend(symbol + Gap(l), s, ch);
    } else {
      CountAppend(s, Gap(l), ch);
      CountAppend(s + Gap(l), symbol, ch);
    }
  }

  /** How often `ch` occurs once the negative marker is placed. */
  lemma WrapCount(sign: SignPlacement, core: string, ch: char)
    ensures Count(Wrap(sign, core), ch) == Count(core, ch) +
      (if ch == '-' && (sign == Leading || sign == Trailing) then 1 else 0) +
      (if (ch == '(' || ch == ')') && sign == Parentheses then 1 else 0)
  {
    match sign
    case Parentheses =>
      CountAppend("(", core, ch);
      CountAppend("(" + core, ")", ch);
    case Leading =>
      CountAppend("-", core, ch);
    case BesideNumber =>
    case Trailing =>
      CountAppend(core, "-", ch);
  }

  /** How often each marker character occurs in a rendered layout whose symbol
      and number do not contain it: one negative sign unless parenthesized,
      one pair of parentheses if so, and one space if the layout is spaced. */
  lemma RenderCounts(l: Layout, symbol: string, number: string, ch: char)
    requires ch !in symbol && ch !in number
    ensures Count(Render(l, symbol, number), ch) ==
      (if ch == '-' && l.sign != Parentheses then 1 else 0) +
      (if (ch == '(' || ch == ')') && l.sign == Parentheses then 1 else 0) +
      (if ch == ' ' && l.spaced then 1 else 0)
  {
    CoreCount(l, symbol, number, ch);
    WrapCount(l.sign, Core(l, symbol, number), ch);
  }

  /** The symbol placeholder and the number placeholder each occur once. */
  lemma RenderPlaceholders(l: Layout)
    ensures Count(Render(l, "$", "n"), '$') == 1 && Count(Render(l, "$", "n"), 'n') == 1
  {
    var s := Signed(l, "n");
    assert Count(s, '$') == 0 && Count(s, 'n') == 1 by {
      if l.sign == BesideNumber {
        if l.symbolFirst {
          CountAppend("-", "n", '$');
          CountAppend("-", "n", 'n');
        } else {
          CountAppend("n", "-", '$');
          CountAppend("n", "-", 'n');
        }
      }
    }
    var c := Core(l, "$", "n");
    assert Count(c, '$') == 1 && Count(c, 'n') == 1 by {
      if l.symbolFirst {
        CountAppend("$", Gap(l), '$');
        CountAppend("$" + Gap(l), s, '$');
        CountAppend("$", Gap(l), 'n');
        CountAppend("$" + Gap(l), s, 'n');
      } else {
        CountAppend(s, Gap(l), '$');
        CountAppend(s + Gap(l), "$", '$');
        CountAppend(s, Gap(l), 'n');
        CountAppend(s + Gap(l), "$", 'n');
      }
    }
    WrapCount(l.sign, c, '$');
    WrapCount(l.sign, c, 'n');
  }

  /** Every pattern holds the symbol once and the number once. */
  lemma OneSymbolOneNumber(p: NegativePosition)
    ensures Count(Description(p), '$') == 1 && Count(Description(p), 'n') == 1
  {
    DescriptionIsLayout(p);
    RenderPlaceholders(LayoutOf(p));
  }

  /** A rendered layout marks the amount negative in exactly one way: one
      '-' and no parentheses, or enclosing parentheses and no '-'. */
  lemma RenderNegativeMarker(l: Layout)
    ensures var d := Render(l, "$", "n");
      if l.sign == Parentheses then
        Count(d, '-') == 0 && Count(d, '(') == 1 && Count(d, ')') == 1 &&
        |d| >= 2 && d[0] == '(' && d[|d| - 1] == ')'
      else
        Count(d, '-') == 1 && Count(d, '(') == 0 && Count(d, ')') == 0
  {
    RenderCounts(l, "$", "n", '-');
    RenderCounts(l, "$", "n", '(');
    RenderCounts(l, "$", "n", ')');
  }

  /** Every pattern marks the amount as negative in exactly one way: a single
      '-' and no parentheses, or enclosing parentheses and no '-'. */
  lemma OneNegativeMarker(p: NegativePosition)
    ensures var d := Description(p);
      if Parenthesized(p) then
        Count(d, '-') == 0 && Count(d, '(') == 1 && Count(d, ')') == 1 &&
        d[0] == '(' && d[|d| - 1] == ')'
      else
        Count(d, '-') == 1 && Count(d, '(') == 0 && Count(d, ')') == 0
  {
    DescriptionIsLayout(p);
    assert Parenthesized(p) <==> LayoutOf(p).sign == Parentheses;
    RenderNegativeMarker(LayoutOf(p));
  }

  /** Zero to Seven hold no space; Eight to Fifteen hold exactly one. */
  lemma SpaceCount(p: NegativePosition)
    ensures Count(Description(p), ' ') == if Spaced(p) then 1 else 0
  {
    DescriptionIsLayout(p);
    assert Spaced(p) <==> LayoutOf(p).spaced;
    RenderCounts(LayoutOf(p), "$", "n", ' ');
  }

  /** Where the one space of a spaced layout stands: next to the symbol. */
  function SpaceIndex(p: NegativePosition): (k: nat)
    requires Spaced(p)
    ensures k < |Description(p)| && Description(p)[k] == ' '
    ensures (0 < k && Description(p)[k - 1] == '$') || (k + 1 < |Description(p)| && Description(p)[k + 1] == '$')
  {
    match p
    case Eight => 2
    case Nine => 2
    case Ten => 1
    case Eleven => 1
    case Twelve => 1
    case Thirteen => 2
    case Fourteen => 2
    case Fifteen => 2
  }

  /** Deleting the spaces of the core gives the unspaced core. */
  lemma CoreWithoutSpace(l: Layout, symbol: string, number: string)
    requires ' ' !in symbol && ' ' !in number
    ensures Without(Core(l, symbol, number), ' ') == Core(l.(spaced := false), symbol, number)
  {
    var s := Signed(l, number);
    assert ' ' !in s;
    WithoutAbsent(s, ' ');
    WithoutAbsent(symbol, ' ');
    assert Without(Gap(l), ' ') == "";
    if l.symbolFirst {
      WithoutAppend(symbol, Gap(l), ' ');
      WithoutAppend(symbol + Gap(l), s, ' ');
      assert symbol + "" == symbol;
    } else {
      WithoutAppend(s, Gap(l), ' ');
      WithoutAppend(s + Gap(l), symbol, ' ');
      assert s + "" == s;
    }
  }

  /** Placing the negative marker commutes with deleting spaces. */
  lemma WrapWithoutSpace(sign: SignPlacement, core: string)
    ensures Without(Wrap(sign, core), ' ') == Wrap(sign, Without(core, ' '))
  {
    match sign
    case Parentheses =>
      WithoutAppend("(", core, ' ');
      WithoutAppend("(" + core, ")", ' ');
    case Leading =>
      WithoutAppend("-", core, ' ');
    case BesideNumber =>
    case Trailing =>
      WithoutAppend(core, "-", ' ');
  }

  /** Deleting the spaces of a rendered layout gives the unspaced layout. */
  lemma RenderWithoutSpace(l: Layout, symbol: string, number: string)
    requires ' ' !in symbol && ' ' !in number
    ensures Without(Render(l, symbol, number), ' ') == Render(l.(spaced := false), symbol, number)
  {
    WrapWithoutSpace(l.sign, Core(l, symbol, number));
    CoreWithoutSpace(l, symbol, number);
  }

  /** The unspaced layout that a spaced one becomes when its space is deleted. */
  function Unspaced(p: NegativePosition): (q: NegativePosition)
    requires Spaced(p)
    ensures !Spaced(q) && LayoutOf(q) == LayoutOf(p).(spaced := false)
  {
    match p
    case Eight => Five
    case Nine => One
    case Ten => Seven
    case Eleven => Three
    case Twelve => Two
    case Thirteen => Six
    case Fourteen => Zero
    case Fifteen => Four
  }

  /** Deleting the space from a spaced pattern gives the pattern of its unspaced layout. */
  lemma SpaceDeleted(p: NegativePosition)
    requires Spaced(p)
    ensures Without(Description(p), ' ') == Description(Unspaced(p))
  {
    DescriptionIsLayout(p);
    DescriptionIsLayout(Unspaced(p));
    RenderWithoutSpace(LayoutOf(p), "$", "n");
  }

  /** No two spaced patterns collapse to the same one when the space is deleted. */
  lemma SpaceDeletedInjective(p: NegativePosition, q: NegativePosition)
    requires Spaced(p) && Spaced(q)
    requires Without(Description(p), ' ') == Without(Description(q), ' ')
    ensures p == q
  {
    SpaceDeleted(p);
    SpaceDeleted(q);
    if Unspaced(p) != Unspaced(q) {
      DescriptionIsLayout(Unspaced(p));
      DescriptionIsLayout(Unspaced(q));
      RenderDetermines(LayoutOf(Unspaced(p)), LayoutOf(Unspaced(q)));
      LayoutsAreDistinct(Unspaced(p), Unspaced(q));
    }
  }

  /** Reads a layout back from its pattern: the opening character tells a
      parenthesized or leading sign, a closing '-' a trailing one, and
      otherwise the sign is beside the number; the first placeholder after
      any marker tells whether the symbol comes first. */
  function ReadLayout(d: string): Layout
  {
    var spaced := ' ' in d;
    if |d| < 2 then Layout(true, BesideNumber, spaced)
    else if d[0] == '(' then Layout(d[1] == '$', Parentheses, spaced)
    else if d[0] == '-' then Layout(d[1] == '$', Leading, spaced)
    else if d[|d| - 1] == '-' then Layout(d[0] == '$', Trailing, spaced)
    else Layout(d[0] == '$', BesideNumber, spaced)
  }

  /** Reading a rendered pattern gives back its layout. */
  lemma ReadRendered(l: Layout)
    ensures ReadLayout(Render(l, "$", "n")) == l
  {
    match l.sign
    case Parentheses =>
    case Leading =>
    case BesideNumber =>
    case Trailing =>
  }

  /** Distinct layouts render to distinct patterns. */
  lemma RenderDetermines(l: Layout, m: Layout)
    requires Render(l, "$", "n") == Render(m, "$", "n")
    ensures l == m
  {
    ReadRendered(l);
    ReadRendered(m);
  }

  /** Filling the placeholders of the signed number. */
  lemma SubstituteSigned(l: Layout, symbol: string, number: string)
    ensures Substitute(Signed(l, "n"), symbol, number) == Signed(l, number)
  {
    if l.sign == BesideNumber {
      SubstituteAppend("-", "n", symbol, number);
      SubstituteAppend("n", "-", symbol, number);
    }
  }

  /** Filling the placeholders of the core. */
  lemma SubstituteCore(l: Layout, symbol: string, number: string)
    ensures Substitute(Core(l, "$", "n"), symbol, number) == Core(l, symbol, number)
  {
    SubstituteSigned(l, symbol, number);
    var s := Signed(l, "n");
    if l.symbolFirst {
      SubstituteAppend("$", Gap(l), symbol, number);
      SubstituteAppend("$" + Gap(l), s, symbol, number);
    } else {
      SubstituteAppend(s, Gap(l), symbol, number);
      SubstituteAppend(s + Gap(l), "$", symbol, number);
    }
  }

  /** Placing the negative marker commutes with filling the placeholders. */
  lemma SubstituteWrap(sign: SignPlacement, core: string, symbol: string, number: string)
    ensures Substitute(Wrap(sign, core), symbol, number) == Wrap(sign, Substitute(core, symbol, number))
  {
    match sign
    case Parentheses =>
      SubstituteAppend("(", core, symbol, number);
      SubstituteAppend("(" + core, ")", symbol, number);
    case Leading =>
      SubstituteAppend("-", core, symbol, number);
    case BesideNumber =>
    case Trailing =>
      SubstituteAppend(core, "-", symbol, number);
  }

  /** Filling the placeholders of a pattern renders its layout. */
  lemma SubstitutedDescription(p: NegativePosition, symbol: string, number: string)
    ensures Substitute(Description(p), symbol, number) == Render(LayoutOf(p), symbol, number)
  {
    DescriptionIsLayout(p);
    SubstituteWrap(LayoutOf(p).sign, Core(LayoutOf(p), "$", "n"), symbol, number);
    SubstituteCore(LayoutOf(p), symbol, number);
  }
}
