/** Decimal numerals: printing, zero padding and reading back. */
module Decimal {
  predicate IsDigit(c: char) {
    '0' <= c <= '9'
  }

  predicate AllDigits(s: string) {
    forall i :: 0 <= i < |s| ==> IsDigit(s[i])
  }

  function Digit(d: nat): char
    requires d < 10
  {
    '0' + d as char
  }

  function Numeral(n: nat): (s: string)
    ensures s != [] && AllDigits(s)
  {
    if n < 10 then [Digit(n)] else Numeral(n / 10) + [Digit(n % 10)]
  }

  function Parse(s: string): nat
    requires AllDigits(s)
  {
    if s == [] then 0 else Parse(s[..|s| - 1]) * 10 + (s[|s| - 1] as int - '0' as int)
  }

  function Pow10(w: nat): nat {
    if w == 0 then 1 else 10 * Pow10(w - 1)
  }

  function Zeros(w: nat): (s: string)
    ensures |s| == w && AllDigits(s)
  {
    if w == 0 then [] else Zeros(w - 1) + ['0']
  }

  /** Zero padded to at least `w` digits. */
  function Padded(n: nat, w: nat): (s: string)
    ensures AllDigits(s)
  {
    var digits := Numeral(n);
    if |digits| < w then Zeros(w - |digits|) + digits else digits
  }

  lemma {:induction false} ParseNumeral(n: nat)
    ensures Parse(Numeral(n)) == n
  {
    if n < 10 {
      assert [Digit(n)][..0] == [];
    } else {
      ParseNumeral(n / 10);
      assert Numeral(n)[..|Numeral(n)| - 1] == Numeral(n / 10);
    }
  }

  lemma {:induction false} ParseZeros(w: nat, s: string)
    requires AllDigits(s)
    ensures Parse(Zeros(w) + s) == Parse(s)
  {
    if s == [] {
      assert Zeros(w) + s == Zeros(w);
      if w > 0 {
        ParseZeros(w - 1, []);
        assert Zeros(w - 1) + [] == Zeros(w - 1);
        assert Zeros(w)[..w - 1] == Zeros(w - 1);
      }
    } else {
      var n := |s| - 1;
      assert (Zeros(w) + s)[..w + n] == Zeros(w) + s[..n];
      ParseZeros(w, s[..n]);
    }
  }

  /** Padding does not change the value. */
  lemma ParsePadded(n: nat, w: nat)
    ensures Parse(Padded(n, w)) == n
  {
    ParseNumeral(n);
    if |Numeral(n)| < w { ParseZeros(w - |Numeral(n)|, Numeral(n)); }
  }

  lemma {:induction false} NumeralLength(n: nat, w: nat)
    requires w >= 1
    ensures |Numeral(n)| <= w <==> n < Pow10(w)
  {
    if n < 10 {
      Pow10Grows(w);
    } else if w == 1 {
      assert Pow10(1) == 10 * Pow10(0);
    } else {
      NumeralLength(n / 10, w - 1);
    }
  }

  lemma {:induction false} Pow10Grows(w: nat)
    requires w >= 1
    ensures Pow10(w) >= 10
  {
    if w == 1 {
      assert Pow10(1) == 10 * Pow10(0);
    } else {
      Pow10Grows(w - 1);
    }
  }

  /** A padded numeral has exactly its width when the number fits. */
  lemma PaddedLength(n: nat, w: nat)
    requires w >= 1
    ensures |Padded(n, w)| == w <==> n < Pow10(w)
  {
    NumeralLength(n, w);
  }

  // The length of the longest run of digits that ends at position `e`.
  function DigitRun(s: string, e: nat): (n: nat)
    requires e <= |s|
    ensures n <= e && forall i :: e - n <= i < e ==> IsDigit(s[i])
  {
    if e == 0 || !IsDigit(s[e - 1]) then 0 else DigitRun(s, e - 1) + 1
  }

  lemma {:induction false} DigitRunFound(s: string, a: nat, e: nat)
    requires 1 <= a <= e <= |s| && !IsDigit(s[a - 1]) && forall i :: a <= i < e ==> IsDigit(s[i])
    ensures DigitRun(s, e) == e - a
    decreases e
  {
    if a < e { DigitRunFound(s, a, e - 1); }
  }
}
