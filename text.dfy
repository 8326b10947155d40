/** Character-level string helpers shared by the currency and formatting
    modules: counting and deleting a character, .NET's white-space test and
    ordinal string comparison. */
module Text {

  /** Number of occurrences of `ch` in `s`. */
  function Count(s: string, ch: char): (n: nat)
    ensures n <= |s|
    ensures n == 0 <==> ch !in s
  {
    if s == [] then 0 else (if s[0] == ch then 1 else 0) + Count(s[1..], ch)
  }

  /** `s` with every occurrence of `ch` deleted. */
  function Without(s: string, ch: char): (r: string)
    ensures ch !in r
    ensures |r| + Count(s, ch) == |s|
    ensures forall c :: c in r ==> c in s
  {
    if s == [] then [] else (if s[0] == ch then [] else [s[0]]) + Without(s[1..], ch)
  }

  lemma {:induction false} CountAppend(a: string, b: string, ch: char)
    ensures Count(a + b, ch) == Count(a, ch) + Count(b, ch)
  {
    if a == [] {
      assert a + b == b;
    } else {
      assert (a + b)[1..] == a[1..] + b;
      CountAppend(a[1..], b, ch);
    }
  }

  lemma {:induction false} WithoutAppend(a: string, b: string, ch: char)
    ensures Without(a + b, ch) == Without(a, ch) + Without(b, ch)
  {
    if a == [] {
      assert a + b == b;
    } else {
      assert (a + b)[1..] == a[1..] + b;
      WithoutAppend(a[1..], b, ch);
    }
  }

  lemma {:induction false} WithoutAbsent(s: string, ch: char)
    requires ch !in s
    ensures Without(s, ch) == s
  {
    if s != [] {
      WithoutAbsent(s[1..], ch);
    }
  }

  /** A layout pattern with every '$' replaced by `symbol` and every 'n' by
      `number`; the inserted text is not scanned again. */
  function Substitute(pattern: string, symbol: string, number: string): (r: string)
    ensures '$' !in pattern && 'n' !in pattern ==> r == pattern
  {
    if pattern == [] then []
    else
      (if pattern[0] == '$' then symbol else if pattern[0] == 'n' then number else [pattern[0]])
      + Substitute(pattern[1..], symbol, number)
  }

  lemma {:induction false} SubstituteAppend(a: string, b: string, symbol: string, number: string)
    ensures Substitute(a + b, symbol, number) == Substitute(a, symbol, number) + Substitute(b, symbol, number)
  {
    if a == [] {
      assert a + b == b;
    } else {
      assert (a + b)[1..] == a[1..] + b;
      SubstituteAppend(a[1..], b, symbol, number);
    }
  }

  /** The characters for which .NET's `char.IsWhiteSpace` holds: the Unicode
      space, line and paragraph separators, U+0009 to U+000D, U+0085 and U+00A0. */
  predicate IsWhiteSpace(ch: char)
  {
    || ('\t' <= ch <= '\r')
    || ch == ' ' || ch == '\U{0085}' || ch == '\U{00A0}' || ch == '\U{1680}'
    || ('\U{2000}' <= ch <= '\U{200A}')
    || ch == '\U{2028}' || ch == '\U{2029}' || ch == '\U{202F}' || ch == '\U{205F}' || ch == '\U{3000}'
  }

  /** `string.IsNullOrWhiteSpace` for a non-null string: empty, or white space only. */
  predicate IsBlank(s: string)
  {
    forall i :: 0 <= i < |s| ==> IsWhiteSpace(s[i])
  }

  /** The UTF-16 code units of one character: itself below U+10000, else
      its surrogate pair, a high unit in D800-DBFF and a low one in DC00-DFFF. */
  function Units(c: char): (u: seq<int>)
    ensures 1 <= |u| <= 2 && 0 <= u[0] < 0x10000
    ensures |u| == 1 <==> (c as int) < 0x10000
    ensures |u| == 1 ==> u[0] == c as int && !(0xD800 <= u[0] < 0xE000)
    ensures |u| == 2 ==> 0xD800 <= u[0] < 0xDC00 && 0xDC00 <= u[1] < 0xE000
  {
    var n := c as int;
    if n < 0x10000 then [n]
    else
      var v := n - 0x10000;
      var q, r := v / 0x400, v % 0x400;
      SurrogateSplit(v, q, r);
      [0xD800 + q, 0xDC00 + r]
  }

  /** The high and low halves of a supplementary code point's offset. */
  lemma SurrogateSplit(v: int, q: int, r: int)
    requires 0 <= v < 0x100000 && q == v / 0x400 && r == v % 0x400
    ensures 0 <= q < 0x400 && 0 <= r < 0x400 && q * 0x400 + r == v
  {
  }

  /** The units determine the character. */
  lemma UnitsInjective(c: char, d: char)
    requires Units(c) == Units(d)
    ensures c == d
  {
    if (c as int) >= 0x10000 {
      var v, w := c as int - 0x10000, d as int - 0x10000;
      SurrogateSplit(v, v / 0x400, v % 0x400);
      SurrogateSplit(w, w / 0x400, w % 0x400);
      assert v == w;
    }
  }

  /** A string as .NET stores it: the UTF-16 code units of its characters. */
  function Utf16(s: string): (u: seq<int>)
    ensures |s| <= |u| <= 2 * |s|
    ensures forall i :: 0 <= i < |u| ==> 0 <= u[i] < 0x10000
  {
    if s == [] then [] else Units(s[0]) + Utf16(s[1..])
  }

  /** Without characters above U+FFFF every character is one unit, its code. */
  lemma {:induction false} Utf16OfBmp(s: string)
    requires forall i :: 0 <= i < |s| ==> (s[i] as int) < 0x10000
    ensures |Utf16(s)| == |s|
    ensures forall i :: 0 <= i < |s| ==> Utf16(s)[i] == s[i] as int
  {
    if s != [] {
      Utf16OfBmp(s[1..]);
      assert Utf16(s) == [s[0] as int] + Utf16(s[1..]);
    }
  }

  /** UTF-16 is a prefix code: from the units the characters are read back
      one at a time, so distinct strings have distinct encodings. */
  lemma {:induction false} Utf16Injective(a: string, b: string)
    requires Utf16(a) == Utf16(b)
    ensures a == b
  {
    if a != [] && b != [] {
      var ua, ub := Units(a[0]), Units(b[0]);
      var ra, rb := Utf16(a[1..]), Utf16(b[1..]);
      assert ua + ra == ub + rb;
      assert ua[0] == (ua + ra)[0] == (ub + rb)[0] == ub[0];
      assert |ua| == |ub|;
      assert ua == (ua + ra)[..|ua|] == (ub + rb)[..|ub|] == ub;
      assert ra == (ua + ra)[|ua|..] == (ub + rb)[|ub|..] == rb;
      UnitsInjective(a[0], b[0]);
      Utf16Injective(a[1..], b[1..]);
      assert a == [a[0]] + a[1..] && b == [b[0]] + b[1..];
    }
  }

  /** Lexicographic order of code unit sequences, as a sign: the first
      differing unit decides, and a proper prefix sorts first. */
  function CompareUnits(a: seq<int>, b: seq<int>): (r: int)
    ensures -1 <= r <= 1
    ensures r == 0 <==> a == b
  {
    if a == [] && b == [] then 0
    else if a == [] then -1
    else if b == [] then 1
    else if a[0] < b[0] then -1
    else if a[0] > b[0] then 1
    else
      var r := CompareUnits(a[1..], b[1..]);
      assert r == 0 ==> a == [a[0]] + a[1..] == [b[0]] + b[1..] == b;
      r
  }

  /** `string.CompareOrdinal`, reduced to its sign: the UTF-16 code units of
      the two strings compared in order. */
  function CompareOrdinal(a: string, b: string): (r: int)
    ensures -1 <= r <= 1
    ensures r == 0 <==> a == b
  {
    if Utf16(a) == Utf16(b) then Utf16Injective(a, b); 0
    else CompareUnits(Utf16(a), Utf16(b))
  }

  /** Swapping the operands flips the sign. */
  lemma {:induction false} CompareUnitsAntisymmetric(a: seq<int>, b: seq<int>)
    ensures CompareUnits(b, a) == -CompareUnits(a, b)
  {
    if a != [] && b != [] && a[0] == b[0] {
      CompareUnitsAntisymmetric(a[1..], b[1..]);
    }
  }

  lemma CompareOrdinalAntisymmetric(a: string, b: string)
    ensures CompareOrdinal(b, a) == -CompareOrdinal(a, b)
  {
    CompareUnitsAntisymmetric(Utf16(a), Utf16(b));
  }

  /** Unit order is transitive, so it orders strings totally. */
  lemma {:induction false} CompareUnitsTransitive(a: seq<int>, b: seq<int>, c: seq<int>)
    requires CompareUnits(a, b) < 0 && CompareUnits(b, c) < 0
    ensures CompareUnits(a, c) < 0
  {
    if a != [] && b != [] && c != [] && a[0] == b[0] && b[0] == c[0] {
      CompareUnitsTransitive(a[1..], b[1..], c[1..]);
    }
  }

  lemma CompareOrdinalTransitive(a: string, b: string, c: string)
    requires CompareOrdinal(a, b) < 0 && CompareOrdinal(b, c) < 0
    ensures CompareOrdinal(a, c) < 0
  {
    CompareUnitsTransitive(Utf16(a), Utf16(b), Utf16(c));
  }

  /** A character above U+FFFF sorts by its high surrogate, so before the
      private-use character U+E000 although its code point is larger. */
  lemma SurrogatesSortLow()
    ensures CompareOrdinal("\U{10000}", "\U{E000}") == -1
    ensures CompareOrdinal("\U{E000}", "\U{10000}") == 1
  {
    assert Units('\U{10000}') == [0xD800, 0xDC00];
    assert Utf16("\U{10000}") == [0xD800, 0xDC00];
    assert Utf16("\U{E000}") == [0xE000];
  }
}
