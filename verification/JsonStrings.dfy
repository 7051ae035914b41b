/** Quoted JSON strings: the printer of `JSON.stringify` and a reader that undoes it (section 7 of RFC 8259). */
module JsonStrings {
  import opened Options
  import opened CodeUnits

  const QUOTE: Unit := 0x22
  const BACKSLASH: Unit := 0x5C

  function HexDigit(n: nat): Unit
    requires n < 16
  {
    if n < 10 then 0x30 + n else 0x61 + n - 10
  }

  function HexValue(u: Unit): Option<nat> {
    if 0x30 <= u <= 0x39 then Some(u - 0x30)
    else if 0x61 <= u <= 0x66 then Some(u - 0x61 + 10)
    else None
  }

  function Hex4(u: Unit): Text {
    [HexDigit(u / 16 / 16 / 16), HexDigit(u / 16 / 16 % 16), HexDigit(u / 16 % 16), HexDigit(u % 16)]
  }

  function FromHex4(t: Text): Option<Unit>
    requires |t| == 4
  {
    var a, b, c, d := HexValue(t[0]), HexValue(t[1]), HexValue(t[2]), HexValue(t[3]);
    if a.None? || b.None? || c.None? || d.None? then None
    else
      assert a.value < 16 && b.value < 16 && c.value < 16 && d.value < 16;
      Some(a.value * 4096 + b.value * 256 + c.value * 16 + d.value)
  }

  lemma Hex4RoundTrip(u: Unit)
    ensures FromHex4(Hex4(u)) == Some(u)
  {
  }

  /** The letter of a two-character escape. */
  function ShortEscape(u: Unit): Option<Unit> {
    match u
    case 0x22 => Some(QUOTE)
    case 0x5C => Some(BACKSLASH)
    case 0x08 => Some(0x62)
    case 0x0C => Some(0x66)
    case 0x0A => Some(0x6E)
    case 0x0D => Some(0x72)
    case 0x09 => Some(0x74)
    case _ => None
  }

  function FromShortEscape(u: Unit): Option<Unit> {
    match u
    case 0x22 => Some(0x22)
    case 0x5C => Some(0x5C)
    case 0x2F => Some(0x2F)
    case 0x62 => Some(0x08)
    case 0x66 => Some(0x0C)
    case 0x6E => Some(0x0A)
    case 0x72 => Some(0x0D)
    case 0x74 => Some(0x09)
    case _ => None
  }

  /** One code unit that is not the first half of a pair. */
  function Escaped(u: Unit): Text {
    if ShortEscape(u).Some? then [BACKSLASH, ShortEscape(u).value]
    else if u < 0x20 || IsHigh(u) || IsLow(u) then [BACKSLASH, 0x75] + Hex4(u)
    else [u]
  }

  function QuoteBody(s: Text): Text {
    if s == [] then []
    else if StartsWithPair(s) then s[..2] + QuoteBody(s[2..])
    else Escaped(s[0]) + QuoteBody(s[1..])
  }

  function Quote(s: Text): Text {
    [QUOTE] + QuoteBody(s) + [QUOTE]
  }

  // ----- reading

  datatype Chunk = End(rest: Text) | Next(unit: Unit, rest: Text) | Malformed

  /** The closing quote, or the next code unit of the string; control characters have to be escaped. */
  function ReadUnit(t: Text): (c: Chunk)
    ensures c.End? || c.Next? ==> |c.rest| < |t|
  {
    if t == [] then Malformed
    else if t[0] == 0x22 then End(t[1..])
    else if t[0] != 0x5C then (if t[0] < 0x20 then Malformed else Next(t[0], t[1..]))
    else if |t| < 2 then Malformed
    else if FromShortEscape(t[1]).Some? then Next(FromShortEscape(t[1]).value, t[2..])
    else if t[1] == 0x75 && |t| >= 6 && FromHex4(t[2..6]).Some? then Next(FromHex4(t[2..6]).value, t[6..])
    else Malformed
  }

  /** What stands before the closing quote, and the text after it. */
  function ReadBody(t: Text): (r: Option<(Text, Text)>)
    ensures r.Some? ==> |r.value.1| < |t|
    decreases |t|
  {
    match ReadUnit(t)
    case Malformed => None
    case End(rest) => Some(([], rest))
    case Next(u, rest) =>
      match ReadBody(rest)
      case None => None
      case Some((s, after)) => Some(([u] + s, after))
  }

  // ----- the round trip

  lemma ReadEscaped(u: Unit, rest: Text)
    ensures ReadUnit(Escaped(u) + rest) == Next(u, rest)
  {
    var t := Escaped(u) + rest;
    if ShortEscape(u).Some? {
      assert t[2..] == rest;
    } else if u < 0x20 || IsHigh(u) || IsLow(u) {
      Hex4RoundTrip(u);
      assert t[2..6] == Hex4(u) && t[6..] == rest;
    } else {
      assert t[1..] == rest;
    }
  }

  lemma ReadRaw(u: Unit, rest: Text)
    requires u >= 0x20 && u != QUOTE && u != BACKSLASH
    ensures ReadUnit([u] + rest) == Next(u, rest)
  {
  }

  lemma ReadNext(t: Text, u: Unit, rest: Text, s: Text, after: Text)
    requires ReadUnit(t) == Next(u, rest) && ReadBody(rest) == Some((s, after))
    ensures ReadBody(t) == Some(([u] + s, after))
  {
  }

  lemma {:induction false} ReadQuoted(s: Text, rest: Text)
    ensures ReadBody(QuoteBody(s) + [QUOTE] + rest) == Some((s, rest))
    decreases |s|
  {
    hide ReadUnit, ReadBody, Escaped;
    var t := QuoteBody(s) + [QUOTE] + rest;
    if s == [] {
      ReadEnd(t, rest);
    } else if StartsWithPair(s) {
      var after := QuoteBody(s[2..]) + [QUOTE] + rest;
      ReadQuoted(s[2..], rest);
      ReadRaw(s[0], [s[1]] + after);
      ReadRaw(s[1], after);
      ReadNext([s[1]] + after, s[1], after, s[2..], rest);
      ReadNext([s[0]] + ([s[1]] + after), s[0], [s[1]] + after, [s[1]] + s[2..], rest);
      assert t == [s[0]] + ([s[1]] + after);
      assert s == [s[0]] + ([s[1]] + s[2..]);
    } else {
      var after := QuoteBody(s[1..]) + [QUOTE] + rest;
      ReadQuoted(s[1..], rest);
      ReadEscaped(s[0], after);
      ReadNext(Escaped(s[0]) + after, s[0], after, s[1..], rest);
      assert t == Escaped(s[0]) + after;
      assert s == [s[0]] + s[1..];
    }
  }

  lemma ReadEnd(t: Text, rest: Text)
    requires t == [QUOTE] + rest
    ensures ReadBody(t) == Some(([], rest))
  {
    assert t[1..] == rest;
  }

  lemma {:induction false} BodyIsUnicode(s: Text)
    ensures IsUnicode(QuoteBody(s))
    decreases |s|
  {
    if s == [] {
    } else if StartsWithPair(s) {
      BodyIsUnicode(s[2..]);
      assert s[..2][2..] == [];
      UnicodeConcat(s[..2], QuoteBody(s[2..]));
    } else {
      BodyIsUnicode(s[1..]);
      EscapedIsUnicode(s[0]);
      UnicodeConcat(Escaped(s[0]), QuoteBody(s[1..]));
    }
  }

  lemma EscapedIsUnicode(u: Unit)
    ensures IsUnicode(Escaped(u))
  {
    if ShortEscape(u).Some? || u < 0x20 || IsHigh(u) || IsLow(u) {
      PlainIsUnicode(Escaped(u));
    } else {
      assert [u][1..] == [];
    }
  }

  /** A quoted string has no half of a surrogate pair, whatever the string had. */
  lemma QuotedIsUnicode(s: Text)
    ensures IsUnicode(Quote(s))
  {
    BodyIsUnicode(s);
    PlainIsUnicode([QUOTE]);
    UnicodeConcat(QuoteBody(s), [QUOTE]);
    UnicodeConcat([QUOTE], QuoteBody(s) + [QUOTE]);
    assert Quote(s) == [QUOTE] + (QuoteBody(s) + [QUOTE]);
  }

  // ----- the text of a unit is the only one that is as short as possible

  /** The text reads back as the unit, whatever follows, and survives the encoding. */
  ghost predicate Spells(t: Text, u: Unit) {
    IsUnicode(t) && forall rest :: ReadUnit(t + rest) == Next(u, rest)
  }

  lemma EscapedSpells(u: Unit)
    ensures Spells(Escaped(u), u)
  {
    EscapedIsUnicode(u);
    forall rest ensures ReadUnit(Escaped(u) + rest) == Next(u, rest) {
      ReadEscaped(u, rest);
    }
  }

  lemma SpelledWhole(t: Text, u: Unit)
    requires Spells(t, u)
    ensures ReadUnit(t) == Next(u, [])
  {
    assert t + [] == t;
  }

  /** The unit itself, a letter after a backslash, or four hexadecimal digits. */
  predicate IsSpelling(t: Text, u: Unit) {
    || (t == [u] && u >= 0x20 && u != 0x22 && u != 0x5C)
    || (|t| == 2 && t[0] == 0x5C && FromShortEscape(t[1]) == Some(u))
    || (|t| == 6 && t[..2] == [0x5C, 0x75] && FromHex4(t[2..6]) == Some(u))
  }

  lemma SpellingForms(t: Text, u: Unit)
    requires ReadUnit(t) == Next(u, [])
    ensures IsSpelling(t, u)
  {
    if t[0] != 0x5C {
      assert t == [t[0]] + t[1..];
    } else if FromShortEscape(t[1]).Some? {
      assert t == [t[0], t[1]] + t[2..];
    } else {
      assert t == t[..6] + t[6..];
    }
  }

  /** The reader takes the hexadecimal digits in lower case only, so that they are unique. */
  lemma Hex4IsUnique(t: Text, u: Unit)
    requires |t| == 4 && FromHex4(t) == Some(u)
    ensures t == Hex4(u)
  {
    var a, b, c, d := HexValue(t[0]).value, HexValue(t[1]).value, HexValue(t[2]).value, HexValue(t[3]).value;
    assert u == ((a * 16 + b) * 16 + c) * 16 + d;
    assert u % 16 == d && u / 16 == (a * 16 + b) * 16 + c;
    assert u / 16 % 16 == c && u / 16 / 16 == a * 16 + b;
    assert u / 16 / 16 % 16 == b && u / 16 / 16 / 16 == a;
  }

  lemma ShortEscapeIsUnique(x: Unit, u: Unit)
    requires FromShortEscape(x) == Some(u) && u != 0x2F
    ensures ShortEscape(u) == Some(x)
  {
  }

  /**
   What is printed for a code unit is the one shortest text that reads back as it: itself when it may stand alone, else a
   letter after a backslash when there is one, else four hexadecimal digits.
   */
  lemma EscapedIsShortest(u: Unit, t: Text)
    requires Spells(t, u)
    ensures Spells(Escaped(u), u)
    ensures |Escaped(u)| <= |t| && (|t| == |Escaped(u)| ==> t == Escaped(u))
  {
    EscapedSpells(u);
    SpelledWhole(t, u);
    SpellingForms(t, u);
    if t == [u] {
      assert IsUnicode([u]) ==> !IsHigh(u) && !IsLow(u);
    }
    UnitIsShortest(t, u);
  }

  lemma {:induction false} UnicodeDrop(t: Text, k: nat)
    requires IsUnicode(t) && k <= |t| && forall i :: 0 <= i < k ==> !IsHigh(t[i])
    ensures IsUnicode(t[k..])
  {
    if k > 0 {
      UnicodeDrop(t[1..], k - 1);
      assert t[1..][k - 1..] == t[k..];
    } else {
      assert t[0..] == t;
    }
  }

  /** A unit that is followed by more than nothing was spelled before the closing quote. */
  lemma UnitWithin(t: Text, u: Unit, rest: Text) returns (k: nat)
    requires ReadUnit(t + [QUOTE]) == Next(u, rest) && rest != []
    ensures k <= |t| && rest == t[k..] + [QUOTE] && ReadUnit(t[..k]) == Next(u, [])
  {
    var all := t + [QUOTE];
    if all[0] != 0x5C {
      k := 1;
    } else if FromShortEscape(all[1]).Some? {
      k := 2;
    } else {
      k := 6;
      assert all[2..6] == t[..6][2..6];
    }
    assert all[k..] == t[k..] + [QUOTE] && t[..k][k..] == [];
  }

  /** How a text that reads as a string begins: with one spelling of the first unit, and the rest reads as the rest. */
  lemma FirstSpelling(t: Text, s: Text) returns (k: nat)
    requires s != [] && ReadBody(t + [QUOTE]) == Some((s, []))
    ensures k <= |t| && ReadUnit(t[..k]) == Next(s[0], []) && ReadBody(t[k..] + [QUOTE]) == Some((s[1..], []))
  {
    hide ReadUnit;
    var c := ReadUnit(t + [QUOTE]);
    assert s[1..] == ReadBody(c.rest).value.0;
    k := UnitWithin(t, c.unit, c.rest);
  }

  /**
   Among all texts that survive the encoding and that the reader takes for the string, the printed one is the shortest, and
   the only one of its length: nothing is escaped that may stand as it is.
   */
  lemma {:induction false} QuoteIsShortest(s: Text, t: Text)
    requires IsUnicode(t) && ReadBody(t + [QUOTE]) == Some((s, []))
    ensures |QuoteBody(s)| <= |t| && (|t| == |QuoteBody(s)| ==> t == QuoteBody(s))
    decreases |s|
  {
    if s == [] {
      NothingIsEmpty(t);
    } else {
      var k := FirstSpelling(t, s);
      var c, t' := t[..k], t[k..];
      SpellingForms(c, s[0]);
      assert t == c + t' && s == [s[0]] + s[1..];
      if k == 1 && IsHigh(s[0]) {
        PairStands(t, s);
        QuoteIsShortest(s[2..], t[2..]);
        assert t == t[..2] + t[2..] && s[..2] == t[..2];
      } else {
        hide ReadUnit, ReadBody;
        SpellingIsPlain(c, s[0]);
        UnicodeDrop(t, k);
        QuoteIsShortest(s[1..], t');
        UnitIsShortest(c, s[0]);
        if StartsWithPair(s) {
          assert QuoteBody(s[1..]) == Escaped(s[1]) + QuoteBody(s[1..][1..]) && s[1..][1..] == s[2..];
        }
      }
    }
  }

  lemma NothingIsEmpty(t: Text)
    requires ReadBody(t + [QUOTE]) == Some(([], []))
    ensures t == []
  {
  }

  /** A first half of a pair that stands as it is is followed by the second half. */
  lemma PairStands(t: Text, s: Text)
    requires IsUnicode(t) && t != [] && s != [] && t[0] == s[0] && IsHigh(s[0])
    requires ReadBody(t[1..] + [QUOTE]) == Some((s[1..], []))
    ensures StartsWithPair(t) && StartsWithPair(s) && s[..2] == t[..2] && IsUnicode(t[2..])
    ensures ReadBody(t[2..] + [QUOTE]) == Some((s[2..], []))
  {
    var all := t[1..] + [QUOTE];
    assert all[0] == t[1] && all[1..] == t[2..] + [QUOTE];
    assert ReadUnit(all) == Next(t[1], t[2..] + [QUOTE]);
    assert s[1..][1..] == s[2..] && s[1..] == [t[1]] + s[2..];
  }

  lemma SpellingIsPlain(c: Text, u: Unit)
    requires IsSpelling(c, u) && (c == [u] ==> !IsHigh(u))
    ensures forall i :: 0 <= i < |c| ==> !IsHigh(c[i])
  {
    if |c| == 6 {
      forall i | 2 <= i < 6 ensures !IsHigh(c[i]) {
        assert HexValue(c[2..6][i - 2]).Some?;
      }
      assert c[0] == c[..2][0] && c[1] == c[..2][1];
    }
  }

  lemma UnitIsShortest(c: Text, u: Unit)
    requires IsSpelling(c, u) && (c == [u] ==> !IsHigh(u) && !IsLow(u))
    ensures |Escaped(u)| <= |c| && (|c| == |Escaped(u)| ==> c == Escaped(u))
    ensures IsHigh(u) || IsLow(u) ==> |Escaped(u)| == 6
  {
    if |c| == 2 {
      if u != 0x2F {
        ShortEscapeIsUnique(c[1], u);
      }
      assert c == [c[0], c[1]];
    } else if |c| == 6 {
      Hex4IsUnique(c[2..6], u);
      assert c == c[..2] + c[2..6];
    }
  }
}
