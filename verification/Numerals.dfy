/** Decimal numerals: the text of a natural number and the number a digit text denotes. */
module Numerals {

  predicate IsDigit(c: char) {
    '0' <= c <= '9'
  }

  predicate AllDigits(s: string) {
    forall i :: 0 <= i < |s| ==> IsDigit(s[i])
  }

  function DigitValue(c: char): nat
    requires IsDigit(c)
  {
    c as int - '0' as int
  }

  function DigitChar(d: nat): char
    requires d < 10
  {
    ('0' as int + d) as char
  }

  /** What `BigInt(s)` denotes on a digit text; leading zeros are allowed. */
  function Number(s: string): nat
    requires AllDigits(s)
  {
    if s == "" then 0 else 10 * Number(s[..|s| - 1]) + DigitValue(s[|s| - 1])
  }

  /** `n.toString()`. */
  function Numeral(n: nat): (s: string)
    ensures AllDigits(s) && s != ""
  {
    if n < 10 then [DigitChar(n)] else Numeral(n / 10) + [DigitChar(n % 10)]
  }

  /** A digit text without superfluous leading zeros: `0|[1-9][0-9]*`. */
  predicate IsNumeral(s: string) {
    AllDigits(s) && s != "" && (s[0] == '0' ==> |s| == 1)
  }

  function Pow10(k: nat): (p: nat)
    ensures p > 0
  {
    if k == 0 then 1 else 10 * Pow10(k - 1)
  }

  function Zeros(k: nat): (s: string)
    ensures |s| == k && forall i :: 0 <= i < k ==> s[i] == '0'
  {
    seq(k, _ => '0')
  }

  /** `s.padStart(width, "0")`. */
  function PadStart(s: string, width: nat): string {
    if |s| >= width then s else Zeros(width - |s|) + s
  }

  lemma {:induction false} NumberOfNumeral(n: nat)
    ensures Number(Numeral(n)) == n
  {
    if n < 10 {
    } else {
      var s := Numeral(n);
      assert s[..|s| - 1] == Numeral(n / 10);
      NumberOfNumeral(n / 10);
    }
  }

  lemma {:induction false} NumeralIsCanonical(n: nat)
    ensures IsNumeral(Numeral(n))
    ensures n > 0 ==> Numeral(n)[0] != '0'
  {
    if n >= 10 {
      NumeralIsCanonical(n / 10);
    }
  }

  lemma {:induction false} NumberPositive(s: string)
    requires AllDigits(s) && s != "" && s[0] != '0'
    ensures Number(s) > 0
  {
    if |s| > 1 {
      NumberPositive(s[..|s| - 1]);
    }
  }

  /** A canonical numeral is the only one that denotes its number. */
  lemma {:induction false} NumeralOfNumber(s: string)
    requires IsNumeral(s)
    ensures Numeral(Number(s)) == s
  {
    if |s| > 1 {
      var init := s[..|s| - 1];
      NumberPositive(init);
      NumeralOfNumber(init);
      assert Number(s) / 10 == Number(init);
      assert s == init + [s[|s| - 1]];
    }
  }

  lemma ShiftDigit(x: nat, p: nat, y: nat, d: nat)
    ensures 10 * (x * p + y) + d == x * (10 * p) + (10 * y + d)
  {
  }

  lemma {:induction false} NumberConcat(a: string, b: string)
    requires AllDigits(a) && AllDigits(b)
    ensures AllDigits(a + b)
    ensures Number(a + b) == Number(a) * Pow10(|b|) + Number(b)
  {
    if b == "" {
      assert a + b == a;
    } else {
      var init, d := b[..|b| - 1], DigitValue(b[|b| - 1]);
      NumberConcat(a, init);
      assert (a + b)[..|a + b| - 1] == a + init;
      ShiftDigit(Number(a), Pow10(|init|), Number(init), d);
      assert Pow10(|b|) == 10 * Pow10(|init|);
    }
  }

  lemma {:induction false} NumberOfZeros(k: nat)
    ensures Number(Zeros(k)) == 0
  {
    if k > 0 {
      assert Zeros(k)[..k - 1] == Zeros(k - 1);
      NumberOfZeros(k - 1);
    }
  }

  lemma {:induction false} NumberBound(s: string)
    requires AllDigits(s)
    ensures Number(s) < Pow10(|s|)
  {
    if s != "" {
      NumberBound(s[..|s| - 1]);
    }
  }

  lemma {:induction false} Pow10Sum(i: nat, j: nat)
    ensures Pow10(i + j) == Pow10(i) * Pow10(j)
  {
    if i > 0 {
      Pow10Sum(i - 1, j);
    }
  }

  lemma {:induction false} Pow10Monotone(i: nat, j: nat)
    requires i <= j
    ensures Pow10(i) <= Pow10(j)
  {
    if i < j {
      Pow10Monotone(i, j - 1);
    }
  }

  lemma {:induction false} NumberHead(s: string)
    requires AllDigits(s) && s != ""
    ensures AllDigits(s[1..])
    ensures Number(s) == DigitValue(s[0]) * Pow10(|s| - 1) + Number(s[1..])
  {
    assert s == [s[0]] + s[1..];
    NumberConcat([s[0]], s[1..]);
    assert [s[0]][..0] == "";
  }

  /** Padding a number's numeral back to the width of any digit text for it restores that text. */
  lemma {:induction false} PadRestores(s: string)
    requires AllDigits(s) && s != ""
    ensures |Numeral(Number(s))| <= |s|
    ensures PadStart(Numeral(Number(s)), |s|) == s
  {
    if IsNumeral(s) {
      NumeralOfNumber(s);
    } else {
      var tail := s[1..];
      assert s == "0" + tail;
      assert Number(s) == Number(tail) by {
        NumberHead(s);
      }
      PadRestores(tail);
      var num := Numeral(Number(tail));
      assert Zeros(|s| - |num|) == "0" + Zeros(|tail| - |num|);
    }
  }

  /** Character order on texts, as the `<=` of strings: the first difference decides. */
  predicate TextAtMost(a: string, b: string) {
    a == "" || (b != "" && (a[0] < b[0] || (a[0] == b[0] && TextAtMost(a[1..], b[1..]))))
  }

  lemma HeadDecides(d: nat, e: nat, x: nat, y: nat, p: nat)
    requires x < p && y < p
    ensures d < e ==> d * p + x < e * p + y
    ensures e < d ==> e * p + y < d * p + x
  {
    if d < e {
      assert (d + 1) * p <= e * p;
    } else if e < d {
      assert (e + 1) * p <= d * p;
    }
  }

  /** On digit texts of equal length, text order is numeric order. */
  lemma {:induction false} EqualLengthOrder(a: string, b: string)
    requires AllDigits(a) && AllDigits(b) && |a| == |b|
    ensures TextAtMost(a, b) <==> Number(a) <= Number(b)
  {
    if a != "" {
      NumberHead(a);
      NumberHead(b);
      NumberBound(a[1..]);
      NumberBound(b[1..]);
      EqualLengthOrder(a[1..], b[1..]);
      HeadDecides(DigitValue(a[0]), DigitValue(b[0]), Number(a[1..]), Number(b[1..]), Pow10(|a| - 1));
    }
  }
}
