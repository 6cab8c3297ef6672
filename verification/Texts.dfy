/** Concatenation, separators and decimal numerals in texts. */
module Texts {

  lemma Associative<T>(a: seq<T>, b: seq<T>, c: seq<T>)
    ensures (a + b) + c == a + (b + c)
  {
  }

  /** Two texts that are cut at their first separator are cut at the same place. */
  lemma {:induction false} FirstSeparator<T>(mark: T, a: seq<T>, b: seq<T>, x: seq<T>, y: seq<T>)
    requires mark !in a && mark !in b && a + ([mark] + x) == b + ([mark] + y)
    ensures a == b && x == y
    decreases |a|
  {
    var s, t := a + ([mark] + x), b + ([mark] + y);
    assert a == [] <==> s[0] == mark by { if a != [] { assert s[0] == a[0]; } }
    assert b == [] <==> t[0] == mark by { if b != [] { assert t[0] == b[0]; } }
    if a == [] {
      assert s[1..] == x && t[1..] == y;
    } else {
      assert s[1..] == a[1..] + ([mark] + x) && t[1..] == b[1..] + ([mark] + y);
      FirstSeparator(mark, a[1..], b[1..], x, y);
      assert a == [s[0]] + a[1..] && b == [t[0]] + b[1..];
    }
  }

  /** `String(n)`, with `glyph` for the digits. */
  function Numeral<T>(n: nat, glyph: nat -> T): (r: seq<T>)
    ensures r != []
  {
    if n < 10 then [glyph(n)] else Numeral(n / 10, glyph) + [glyph(n % 10)]
  }

  /** The number that a text of decimal digits stands for. */
  function Reading<T>(s: seq<T>, digit: T -> int): int {
    if s == [] then 0 else Reading(s[..|s| - 1], digit) * 10 + digit(s[|s| - 1])
  }

  /** A numeral stands for its number, without leading zeros. */
  lemma {:induction false} NumeralReads<T>(n: nat, glyph: nat -> T, digit: T -> int)
    requires forall d: nat | d < 10 :: digit(glyph(d)) == d
    ensures Reading(Numeral(n, glyph), digit) == n
    ensures n > 0 ==> digit(Numeral(n, glyph)[0]) != 0
  {
    var s := Numeral(n, glyph);
    if n < 10 {
      assert s[..0] == [];
    } else {
      NumeralReads(n / 10, glyph, digit);
      assert s[..|s| - 1] == Numeral(n / 10, glyph) && s[0] == Numeral(n / 10, glyph)[0];
    }
  }

  /** The digits have glyphs of their own. */
  ghost predicate Legible<T>(glyph: nat -> T) { forall i, j | 0 <= i < j < 10 :: glyph(i) != glyph(j) }

  lemma {:induction false} NumeralGlyphs<T>(n: nat, glyph: nat -> T)
    ensures forall c | c in Numeral(n, glyph) :: exists d :: 0 <= d < 10 && c == glyph(d)
  {
    if n < 10 {
    } else {
      NumeralGlyphs(n / 10, glyph);
    }
  }

  lemma {:induction false} NumeralInjective<T>(m: nat, n: nat, glyph: nat -> T)
    requires Legible(glyph) && Numeral(m, glyph) == Numeral(n, glyph)
    ensures m == n
  {
    var s := Numeral(m, glyph);
    assert s[|s| - 1] == glyph(m % 10) && s[|s| - 1] == glyph(n % 10);
    if m >= 10 && n >= 10 {
      assert s[..|s| - 1] == Numeral(m / 10, glyph) && s[..|s| - 1] == Numeral(n / 10, glyph);
      NumeralInjective(m / 10, n / 10, glyph);
    } else {
      assert m < 10 <==> |s| == 1;
      assert n < 10 <==> |s| == 1;
    }
  }
}
