/**
 * Character and string helpers used by the bank's forms and admin search:
 * digit stripping, ASCII lower-casing, substring search and the decimal
 * rendering of non-negative integers.
 */
module Text {

  predicate IsDigit(c: char) {
    '0' <= c <= '9'
  }

  predicate AllDigits(s: string) {
    forall i :: 0 <= i < |s| ==> IsDigit(s[i])
  }

  /** The digits of `s`, in their original order: every other character is removed. */
  function Digits(s: string): (r: string)
    ensures AllDigits(r)
    ensures |r| <= |s|
  {
    if s == [] then []
    else (if IsDigit(s[0]) then [s[0]] else []) + Digits(s[1..])
  }

  /** Stripping non-digits from a string made of digits changes nothing. */
  lemma {:induction false} DigitsOfDigits(s: string)
    requires AllDigits(s)
    ensures Digits(s) == s
  {
    if s != [] {
      DigitsOfDigits(s[1..]);
    }
  }

  /** On one character: a digit is kept, anything else is dropped. */
  lemma DigitsOfChar(c: char)
    ensures Digits([c]) == if IsDigit(c) then [c] else []
  {
    assert [c][1..] == [];
  }

  /** Digit stripping distributes over concatenation. */
  lemma {:induction false} DigitsAppend(a: string, b: string)
    ensures Digits(a + b) == Digits(a) + Digits(b)
  {
    if a == [] {
      assert a + b == b;
    } else {
      var h := if IsDigit(a[0]) then [a[0]] else [];
      assert (a + b)[0] == a[0];
      assert (a + b)[1..] == a[1..] + b;
      assert Digits(a + b) == h + Digits(a[1..] + b);
      DigitsAppend(a[1..], b);
      assert Digits(a) == h + Digits(a[1..]);
      assert h + (Digits(a[1..]) + Digits(b)) == (h + Digits(a[1..])) + Digits(b);
    }
  }

  /** Lower-cases one ASCII letter; every other character is kept. */
  function LowerChar(c: char): char {
    if 'A' <= c <= 'Z' then (c as int + 32) as char else c
  }

  /**
   * `s.toLowerCase()`, restricted to ASCII: upper-case Latin letters become
   * lower-case, every other character is unchanged.
   */
  function AsciiLower(s: string): (r: string)
    ensures |r| == |s|
    ensures forall i :: 0 <= i < |s| ==> r[i] == LowerChar(s[i])
  {
    seq(|s|, i requires 0 <= i < |s| => LowerChar(s[i]))
  }

  predicate StartsWith(s: string, prefix: string) {
    |prefix| <= |s| && s[..|prefix|] == prefix
  }

  /** `needle` occurs somewhere in `hay` (JavaScript's `includes`). */
  predicate Contains(hay: string, needle: string)
    decreases |hay|
  {
    StartsWith(hay, needle) || (|hay| > 0 && Contains(hay[1..], needle))
  }

  /** Reference meaning of `Contains`: an occurrence at some offset. */
  ghost predicate OccursAt(hay: string, needle: string, i: int) {
    0 <= i && i + |needle| <= |hay| && hay[i..i + |needle|] == needle
  }

  /** An occurrence at offset `i` is found by the search. */
  lemma {:induction false} OccursThenContains(hay: string, needle: string, i: int)
    requires OccursAt(hay, needle, i)
    ensures Contains(hay, needle)
    decreases i
  {
    if i == 0 {
      assert hay[..|needle|] == hay[0..|needle|];
    } else {
      assert hay[1..][i - 1..i - 1 + |needle|] == hay[i..i + |needle|];
      OccursThenContains(hay[1..], needle, i - 1);
    }
  }

  /** A successful search names an offset where `needle` occurs. */
  lemma {:induction false} ContainsThenOccurs(hay: string, needle: string) returns (i: int)
    requires Contains(hay, needle)
    ensures OccursAt(hay, needle, i)
    decreases |hay|
  {
    if StartsWith(hay, needle) {
      assert hay[0..|needle|] == hay[..|needle|];
      i := 0;
    } else {
      var j := ContainsThenOccurs(hay[1..], needle);
      assert hay[1..][j..j + |needle|] == hay[j + 1..j + 1 + |needle|];
      i := j + 1;
    }
  }

  /** `Contains` agrees with its reference meaning, in both directions. */
  lemma ContainsIffOccurs(hay: string, needle: string)
    ensures Contains(hay, needle) <==> exists i :: OccursAt(hay, needle, i)
  {
    if Contains(hay, needle) {
      var i := ContainsThenOccurs(hay, needle);
    }
    forall i | OccursAt(hay, needle, i)
      ensures Contains(hay, needle)
    {
      OccursThenContains(hay, needle, i);
    }
  }

  /** The empty string occurs in every string, so an empty search matches. */
  lemma ContainsEmpty(hay: string)
    ensures Contains(hay, "")
  {
    assert hay[..0] == "";
  }

  /** The character for a decimal digit `d`. */
  function DigitChar(d: nat): (c: char)
    requires d < 10
    ensures IsDigit(c)
  {
    (48 + d) as char
  }

  function DigitValue(c: char): nat
    requires IsDigit(c)
  {
    c as int - 48
  }

  /**
   * The decimal digits of `n`, most significant first, without leading zeros.
   * This is what JavaScript's `toString` gives for the clock readings and
   * random draws rendered here, all far below 10^21 where it would switch to
   * exponent notation.
   */
  function Decimal(n: nat): (r: string)
    ensures 1 <= |r|
    ensures AllDigits(r)
    decreases n
  {
    if n < 10 then [DigitChar(n)] else Decimal(n / 10) + [DigitChar(n % 10)]
  }

  /** The number a string of decimal digits denotes. */
  function ValueOf(s: string): nat
    requires AllDigits(s)
  {
    if s == [] then 0 else 10 * ValueOf(s[..|s| - 1]) + DigitValue(s[|s| - 1])
  }

  /** Rendering then reading back a number gives the number. */
  lemma {:induction false} DecimalRoundTrip(n: nat)
    ensures ValueOf(Decimal(n)) == n
    decreases n
  {
    var r := Decimal(n);
    if n >= 10 {
      assert r[..|r| - 1] == Decimal(n / 10);
      DecimalRoundTrip(n / 10);
    }
  }

  /** Distinct numbers render as distinct strings. */
  lemma DecimalInjective(m: nat, n: nat)
    requires Decimal(m) == Decimal(n)
    ensures m == n
  {
    DecimalRoundTrip(m);
    DecimalRoundTrip(n);
  }

  function Pow10(k: nat): (p: nat)
    ensures p >= 1
  {
    if k == 0 then 1 else 10 * Pow10(k - 1)
  }

  /** The powers of ten that bound six- and ten-digit numbers. */
  lemma Pow10Values()
    ensures Pow10(5) == 100000 && Pow10(6) == 1000000
    ensures Pow10(9) == 1000000000 && Pow10(10) == 10000000000
  {
    assert Pow10(3) == 1000;
    assert Pow10(6) == 1000000;
    assert Pow10(9) == 1000000000;
  }

  /** A number with exactly `k` decimal digits renders as `k` characters. */
  lemma {:induction false} DecimalWidth(n: nat, k: nat)
    requires 1 <= k
    requires Pow10(k - 1) <= n < Pow10(k)
    ensures |Decimal(n)| == k
    decreases k
  {
    if k > 1 {
      assert n >= 10;
      DecimalWidth(n / 10, k - 1);
    } else {
      assert n < 10;
    }
  }
}
