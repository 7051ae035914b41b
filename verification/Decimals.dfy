/** Eighteen-place decimal amounts: the parser, the printer and the comparison that the ledger and the bridge share. */
module Decimals {
  import opened Numerals

  const PLACES: nat := 18

  datatype Parsed = Units(n: nat) | InvalidDecimal | TooManyPlaces

  /** White space and line terminators, as `String.prototype.trim` strips them. */
  predicate IsSpace(c: char): (space: bool)
    ensures space <==> c as int in {0x9, 0xA, 0xB, 0xC, 0xD, 0x20, 0xA0, 0x1680, 0x2000, 0x2001, 0x2002, 0x2003, 0x2004, 0x2005,
                                    0x2006, 0x2007, 0x2008, 0x2009, 0x200A, 0x2028, 0x2029, 0x202F, 0x205F, 0x3000, 0xFEFF}
  {
    || c in {'\t', '\n', '\U{000B}', '\U{000C}', '\r', ' ', '\U{00A0}', '\U{1680}'}
    || '\U{2000}' <= c <= '\U{200A}'
    || c in {'\U{2028}', '\U{2029}', '\U{202F}', '\U{205F}', '\U{3000}', '\U{FEFF}'}
  }

  function TrimStart(s: string): (r: string)
    ensures r != "" ==> !IsSpace(r[0])
  {
    if s != "" && IsSpace(s[0]) then TrimStart(s[1..]) else s
  }

  function TrimEnd(s: string): (r: string)
    ensures r <= s && (r != "" ==> !IsSpace(r[|r| - 1]))
  {
    if s != "" && IsSpace(s[|s| - 1]) then TrimEnd(s[..|s| - 1]) else s
  }

  function Trim(s: string): string {
    TrimEnd(TrimStart(s))
  }

  /** The index of the first `c`, or the length when there is none. */
  function IndexOf(c: char, s: string): (i: nat)
    ensures i <= |s| && (i < |s| ==> s[i] == c) && c !in s[..i]
  {
    if s == "" || s[0] == c then 0
    else
      var i := 1 + IndexOf(c, s[1..]);
      assert s[..i] == [s[0]] + s[1..][..i - 1];
      i
  }

  /** A text of the shape `digits` or `digits.digits`, split at the point. */
  datatype Split = Split(whole: string, frac: string) | NoMatch

  function SplitDecimal(t: string): (r: Split)
    ensures r.Split? ==> AllDigits(r.whole) && r.whole != "" && AllDigits(r.frac)
  {
    var p := IndexOf('.', t);
    if t[..p] == "" || !AllDigits(t[..p]) then NoMatch
    else if p == |t| then Split(t, "")
    else if t[p + 1..] == "" || !AllDigits(t[p + 1..]) then NoMatch
    else Split(t[..p], t[p + 1..])
  }

  function ParseUnits(input: string): Parsed {
    match SplitDecimal(Trim(input))
    case NoMatch => InvalidDecimal
    case Split(whole, frac) =>
      if |frac| > PLACES then TooManyPlaces
      else Units(Number(whole + frac + Zeros(PLACES - |frac|)))
  }

  predicate IsAmount(s: string) {
    ParseUnits(s).Units?
  }

  /** `frac.replace(/0+$/, "")`. */
  function StripZeros(s: string): (r: string)
    ensures r <= s && (r != "" ==> r[|r| - 1] != '0')
    ensures s == r + Zeros(|s| - |r|)
  {
    if s != "" && s[|s| - 1] == '0' then StripZeros(s[..|s| - 1]) else s
  }

  function Join(whole: string, frac: string): string {
    if frac == "" then whole else whole + "." + frac
  }

  /** A digit text with the point put before its last eighteen digits and trailing zeros dropped. */
  function Layout(raw: string): string
    requires |raw| > PLACES
  {
    Join(raw[..|raw| - PLACES], StripZeros(raw[|raw| - PLACES..]))
  }

  function Magnitude(n: nat): (raw: string)
    ensures |raw| > PLACES
  {
    PadStart(Numeral(n), PLACES + 1)
  }

  function PrintUnits(value: int): string {
    if value < 0 then "-" + Layout(Magnitude(-value)) else Layout(Magnitude(value))
  }

  /** Negative, zero or positive as the first amount is below, equal to or above the second. */
  function Compare(a: string, b: string): int
    requires IsAmount(a) && IsAmount(b)
  {
    var x, y := ParseUnits(a).n, ParseUnits(b).n;
    if x == y then 0 else if x > y then 1 else -1
  }

  // ----- the printer is a right inverse of the parser

  lemma {:induction false} TrimKeeps(s: string)
    requires s != "" ==> !IsSpace(s[0]) && !IsSpace(s[|s| - 1])
    ensures Trim(s) == s
  {
  }

  lemma {:induction false} IndexOfJoin(whole: string, frac: string)
    requires AllDigits(whole)
    ensures IndexOf('.', whole) == |whole|
    ensures IndexOf('.', whole + "." + frac) == |whole|
  {
    if whole != "" {
      IndexOfJoin(whole[1..], frac);
      assert (whole + "." + frac)[1..] == whole[1..] + "." + frac;
    }
  }

  /** A joined pair splits back into the pair it was joined from. */
  lemma SplitJoin(whole: string, frac: string)
    requires AllDigits(whole) && whole != "" && AllDigits(frac)
    ensures Trim(Join(whole, frac)) == Join(whole, frac)
    ensures SplitDecimal(Join(whole, frac)) == Split(whole, frac)
  {
    var t := Join(whole, frac);
    TrimKeeps(t);
    IndexOfJoin(whole, frac);
    if frac == "" {
      assert t[..|whole|] == whole;
    } else {
      assert t[..|whole|] == whole && t[|whole| + 1..] == frac;
    }
  }

  lemma ParseJoin(whole: string, frac: string)
    requires AllDigits(whole) && whole != "" && AllDigits(frac) && |frac| <= PLACES
    ensures ParseUnits(Join(whole, frac)) == Units(Number(whole + frac + Zeros(PLACES - |frac|)))
  {
    SplitJoin(whole, frac);
  }

  lemma {:induction false} NumberPad(s: string, k: nat)
    requires AllDigits(s)
    ensures Number(Zeros(k) + s) == Number(s)
  {
    NumberOfZeros(k);
    NumberConcat(Zeros(k), s);
  }

  lemma ConcatAssociates(a: string, b: string, c: string)
    ensures a + b + c == a + (b + c)
  {
  }

  lemma ParseLayout(raw: string)
    requires AllDigits(raw) && |raw| > PLACES
    ensures ParseUnits(Layout(raw)) == Units(Number(raw))
  {
    hide ParseUnits;
    var whole, tail := raw[..|raw| - PLACES], raw[|raw| - PLACES..];
    var frac := StripZeros(tail);
    ParseJoin(whole, frac);
    ConcatAssociates(whole, frac, Zeros(PLACES - |frac|));
    assert frac + Zeros(PLACES - |frac|) == tail;
    assert whole + tail == raw;
  }

  lemma MagnitudeDenotes(n: nat)
    ensures AllDigits(Magnitude(n)) && Number(Magnitude(n)) == n
  {
    NumberOfNumeral(n);
    if |Numeral(n)| < PLACES + 1 {
      NumberPad(Numeral(n), PLACES + 1 - |Numeral(n)|);
    }
  }

  /** Printing a natural number and parsing it back gives that number. */
  lemma RoundTrip(n: nat)
    ensures ParseUnits(PrintUnits(n)) == Units(n)
  {
    MagnitudeDenotes(n);
    ParseLayout(Magnitude(n));
  }

  lemma ParseZero()
    ensures ParseUnits("0") == Units(0)
  {
    hide ParseUnits;
    ParseJoin("0", "");
    NumberOfZeros(PLACES);
    assert "0" + "" + Zeros(PLACES) == Zeros(1) + Zeros(PLACES);
    NumberPad(Zeros(PLACES), 1);
  }

  lemma SignRefused(body: string)
    requires body != "" && IsDigit(body[|body| - 1])
    ensures ParseUnits("-" + body) == InvalidDecimal
  {
  }

  lemma LayoutEndsInDigit(raw: string)
    requires AllDigits(raw) && |raw| > PLACES
    ensures Layout(raw) != "" && IsDigit(Layout(raw)[|Layout(raw)| - 1])
  {
  }

  /** Negative values print with a sign that the parser refuses. */
  lemma NegativeRefused(value: int)
    requires value < 0
    ensures ParseUnits(PrintUnits(value)) == InvalidDecimal
  {
    MagnitudeDenotes(-value);
    LayoutEndsInDigit(Magnitude(-value));
    SignRefused(Layout(Magnitude(-value)));
  }

  // ----- which texts are amounts

  predicate AllSpace(s: string) {
    forall i :: 0 <= i < |s| ==> IsSpace(s[i])
  }

  /** Digits, with a fraction after a point or without one, between any white space. */
  predicate Writes(s: string, before: string, whole: string, frac: string, after: string) {
    && s == before + (if frac == "" then whole else whole + "." + frac) + after
    && AllSpace(before) && AllSpace(after)
    && whole != "" && AllDigits(whole) && AllDigits(frac)
  }

  lemma {:induction false} TrimStartOf(before: string, t: string)
    requires AllSpace(before) && t != "" && !IsSpace(t[0])
    ensures TrimStart(before + t) == t
  {
    if before == "" {
      assert before + t == t;
    } else {
      assert (before + t)[1..] == before[1..] + t;
      TrimStartOf(before[1..], t);
    }
  }

  lemma {:induction false} TrimEndOf(t: string, after: string)
    requires AllSpace(after) && t != "" && !IsSpace(t[|t| - 1])
    ensures TrimEnd(t + after) == t
  {
    if after == "" {
      assert t + after == t;
    } else {
      assert (t + after)[..|t + after| - 1] == t + after[..|after| - 1];
      TrimEndOf(t, after[..|after| - 1]);
    }
  }

  lemma TrimOf(before: string, t: string, after: string)
    requires AllSpace(before) && AllSpace(after) && t != "" && !IsSpace(t[0]) && !IsSpace(t[|t| - 1])
    ensures Trim(before + t + after) == t
  {
    assert before + t + after == before + (t + after);
    TrimStartOf(before, t + after);
    TrimEndOf(t, after);
  }

  lemma {:induction false} TrimStartParts(s: string) returns (before: string)
    ensures s == before + TrimStart(s) && AllSpace(before)
  {
    before := "";
    if s != "" && IsSpace(s[0]) {
      before := TrimStartParts(s[1..]);
      assert s == [s[0]] + s[1..];
      before := [s[0]] + before;
    }
  }

  lemma {:induction false} TrimEndParts(s: string) returns (after: string)
    ensures s == TrimEnd(s) + after && AllSpace(after)
  {
    after := "";
    if s != "" && IsSpace(s[|s| - 1]) {
      after := TrimEndParts(s[..|s| - 1]);
      assert s == s[..|s| - 1] + [s[|s| - 1]];
      after := after + [s[|s| - 1]];
    }
  }

  /** A text of that shape is the amount it writes, unless it has more than eighteen places. */
  lemma WrittenParses(s: string, before: string, whole: string, frac: string, after: string)
    requires Writes(s, before, whole, frac, after)
    ensures ParseUnits(s) ==
            if |frac| > 18 then TooManyPlaces else Units(Number(whole + frac) * Pow10(18 - |frac|))
  {
    var t := Join(whole, frac);
    TrimOf(before, t, after);
    SplitJoin(whole, frac);
    assert SplitDecimal(Trim(s)) == Split(whole, frac);
    if |frac| <= 18 {
      UnitsScale(s);
    }
  }

  /** A text is refused as no decimal exactly when it has no such shape. */
  lemma AcceptedTexts(s: string)
    ensures ParseUnits(s).InvalidDecimal? <==> !exists before, whole, frac, after :: Writes(s, before, whole, frac, after)
  {
    if before, whole, frac, after :| Writes(s, before, whole, frac, after) {
      WrittenParses(s, before, whole, frac, after);
    }
    if SplitDecimal(Trim(s)).Split? {
      var before, after := SplitIsWritten(s);
    }
  }

  lemma SplitIsWritten(s: string) returns (before: string, after: string)
    requires SplitDecimal(Trim(s)).Split?
    ensures var split := SplitDecimal(Trim(s)); Writes(s, before, split.whole, split.frac, after)
  {
    hide SplitDecimal;
    before := TrimStartParts(s);
    after := TrimEndParts(TrimStart(s));
    assert s == before + Trim(s) + after;
    SplitRestores(Trim(s));
  }

  lemma SplitRestores(t: string)
    requires SplitDecimal(t).Split?
    ensures t == Join(SplitDecimal(t).whole, SplitDecimal(t).frac)
  {
  }

  // ----- one canonical spelling for every number of units

  /** No surrounding space, no superfluous leading or trailing zero, no empty fraction. */
  ghost predicate IsCanonical(t: string) {
    exists whole, frac :: IsSpelling(whole, frac) && t == Join(whole, frac)
  }

  predicate IsSpelling(whole: string, frac: string) {
    IsNumeral(whole) && AllDigits(frac) && |frac| <= PLACES && (frac != "" ==> frac[|frac| - 1] != '0')
  }

  lemma SpellingOfLayout(raw: string)
    requires AllDigits(raw) && |raw| > PLACES
    requires |raw| == PLACES + 1 || raw[0] != '0'
    ensures IsSpelling(raw[..|raw| - PLACES], StripZeros(raw[|raw| - PLACES..]))
  {
  }

  lemma SpellingIsCanonical(whole: string, frac: string)
    requires IsSpelling(whole, frac)
    ensures IsCanonical(Join(whole, frac))
  {
  }

  lemma MagnitudeShape(n: nat)
    ensures AllDigits(Magnitude(n))
    ensures |Magnitude(n)| > PLACES + 1 ==> Magnitude(n)[0] != '0'
  {
    if n > 0 {
      NumeralIsCanonical(n);
    }
  }

  lemma PrintIsCanonical(n: nat)
    ensures IsCanonical(PrintUnits(n))
  {
    hide Magnitude, IsCanonical, IsSpelling;
    var raw := Magnitude(n);
    MagnitudeShape(n);
    SpellingOfLayout(raw);
    SpellingIsCanonical(raw[..|raw| - PLACES], StripZeros(raw[|raw| - PLACES..]));
  }

  lemma {:induction false} StripRestores(frac: string, k: nat)
    requires frac != "" ==> frac[|frac| - 1] != '0'
    ensures StripZeros(frac + Zeros(k)) == frac
  {
    if k == 0 {
      assert frac + Zeros(0) == frac;
    } else {
      var t := frac + Zeros(k);
      assert t[..|t| - 1] == frac + Zeros(k - 1);
      StripRestores(frac, k - 1);
    }
  }

  lemma MagnitudeRestores(raw: string)
    requires AllDigits(raw) && |raw| > PLACES
    requires |raw| == PLACES + 1 || raw[0] != '0'
    ensures Magnitude(Number(raw)) == raw
  {
    if |raw| == PLACES + 1 {
      PadRestores(raw);
    } else {
      NumeralOfNumber(raw);
    }
  }

  lemma LayoutOfSpelling(whole: string, frac: string, raw: string)
    requires AllDigits(whole) && IsSpelling(whole, frac)
    requires raw == whole + frac + Zeros(PLACES - |frac|)
    ensures |raw| > PLACES && Layout(raw) == Join(whole, frac)
  {
    var tail := frac + Zeros(PLACES - |frac|);
    assert raw == whole + tail;
    assert raw[..|raw| - PLACES] == whole && raw[|raw| - PLACES..] == tail;
    StripRestores(frac, PLACES - |frac|);
  }

  lemma PrintOfSpelling(whole: string, frac: string)
    requires IsSpelling(whole, frac)
    ensures PrintUnits(Number(whole + frac + Zeros(PLACES - |frac|))) == Join(whole, frac)
  {
    var raw := whole + frac + Zeros(PLACES - |frac|);
    LayoutOfSpelling(whole, frac, raw);
    MagnitudeRestores(raw);
  }

  /** Among all texts with the same units, the printed one is the one canonical spelling. */
  lemma UniqueSpelling(input: string, t: string)
    requires IsAmount(input)
    ensures IsCanonical(t) && ParseUnits(t) == ParseUnits(input) <==> t == PrintUnits(ParseUnits(input).n)
  {
    var n := ParseUnits(input).n;
    hide ParseUnits, PrintUnits;
    RoundTrip(n);
    PrintIsCanonical(n);
    if IsCanonical(t) && ParseUnits(t) == Units(n) {
      var whole, frac :| IsSpelling(whole, frac) && t == Join(whole, frac);
      ParseJoin(whole, frac);
      PrintOfSpelling(whole, frac);
    }
  }

  // ----- comparison is exact rational order

  /** `x / 10^i < y / 10^j`, without division. */
  ghost predicate RationalLess(x: nat, i: nat, y: nat, j: nat) {
    x * Pow10(j) < y * Pow10(i)
  }

  lemma CrossMultiply(x: nat, i: nat, y: nat, j: nat, places: nat)
    requires i <= places && j <= places
    ensures x * Pow10(places - i) < y * Pow10(places - j) <==> RationalLess(x, i, y, j)
  {
    Pow10Sum(places - i, i);
    Pow10Sum(places - j, j);
    CrossScale(x, Pow10(places - i), Pow10(i), y, Pow10(places - j), Pow10(j), Pow10(places));
  }

  lemma CrossScale(x: nat, u: nat, pi: nat, y: nat, v: nat, pj: nat, p: nat)
    requires u * pi == p && v * pj == p && p > 0 && pi > 0 && pj > 0
    ensures x * u < y * v <==> x * pj < y * pi
  {
  }

  /** The digits a text writes, as one number, and how many of them follow the point. */
  function Digits(input: string): (r: (nat, nat))
    requires IsAmount(input)
    ensures r.1 <= PLACES
  {
    var split := SplitDecimal(Trim(input));
    (Number(split.whole + split.frac), |split.frac|)
  }

  lemma UnitsScale(input: string)
    requires IsAmount(input)
    ensures ParseUnits(input).n == Digits(input).0 * Pow10(PLACES - Digits(input).1)
  {
    var split := SplitDecimal(Trim(input));
    var k := PLACES - |split.frac|;
    NumberConcat(split.whole + split.frac, Zeros(k));
    NumberOfZeros(k);
  }

  /** The comparison agrees with the order of the exact rational numbers the two texts write. */
  lemma CompareIsRationalOrder(a: string, b: string)
    requires IsAmount(a) && IsAmount(b)
    ensures Compare(a, b) < 0 <==> RationalLess(Digits(a).0, Digits(a).1, Digits(b).0, Digits(b).1)
    ensures Compare(a, b) > 0 <==> RationalLess(Digits(b).0, Digits(b).1, Digits(a).0, Digits(a).1)
  {
    hide ParseUnits, Digits;
    UnitsScale(a);
    UnitsScale(b);
    var (x, i) := Digits(a);
    var (y, j) := Digits(b);
    CrossMultiply(x, i, y, j, PLACES);
    CrossMultiply(y, j, x, i, PLACES);
  }
}
