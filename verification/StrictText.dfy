/** The strict text forms of the API boundary: canonical 256-bit integers and the origins of private networks. */
module StrictText {
  import opened Options
  import opened Numerals
  import opened Decimals

  // ----- canonical 256-bit integers

  /** The decimal text of 2^256 - 1. */
  const MAX_UINT256: string :=
    "115792" + "089237" + "316195" + "423570" + "985008" + "687907" + "853269" +
    "984665" + "640564" + "039457" + "584007" + "913129" + "639935"

  const TWO_TO_THE_256: nat := 0x1_0000_0000_0000_0000_0000_0000_0000_0000_0000_0000_0000_0000_0000_0000_0000_0000

  lemma SixDigits(s: string)
    requires AllDigits(s) && |s| == 6
    ensures Number(s) == 100_000 * DigitValue(s[0]) + 10_000 * DigitValue(s[1]) + 1_000 * DigitValue(s[2])
                         + 100 * DigitValue(s[3]) + 10 * DigitValue(s[4]) + DigitValue(s[5])
  {
    assert s[..5][..4] == s[..4] && s[..4][..3] == s[..3] && s[..3][..2] == s[..2] && s[..2][..1] == s[..1] && s[..1][..0] == "";
    assert Number(s[..1]) == DigitValue(s[0]);
    assert Number(s[..2]) == 10 * Number(s[..1]) + DigitValue(s[1]);
    assert Number(s[..3]) == 10 * Number(s[..2]) + DigitValue(s[2]);
    assert Number(s[..4]) == 10 * Number(s[..3]) + DigitValue(s[3]);
    assert Number(s[..5]) == 10 * Number(s[..4]) + DigitValue(s[4]);
  }

  /** A group of six digits with the value it denotes. */
  predicate Group(s: string, n: nat) {
    AllDigits(s) && |s| == 6 && Number(s) == n
  }

  /** The value of a text followed by six more digits. */
  function Shift(x: nat, y: nat): nat {
    1_000_000 * x + y
  }

  lemma AppendSix(s: string, t: string, y: nat)
    requires AllDigits(s) && Group(t, y)
    ensures AllDigits(s + t) && |s + t| == |s| + 6 && Number(s + t) == Shift(Number(s), y)
  {
    NumberConcat(s, t);
    assert Pow10(6) == 1_000_000;
  }

  lemma GroupsOne()
    ensures Group("115792", 115792)
    ensures Group("089237", 89237)
    ensures Group("316195", 316195)
    ensures Group("423570", 423570)
  {
    SixDigits("115792");
    SixDigits("089237");
    SixDigits("316195");
    SixDigits("423570");
  }

  lemma GroupsTwo()
    ensures Group("985008", 985008)
    ensures Group("687907", 687907)
    ensures Group("853269", 853269)
    ensures Group("984665", 984665)
  {
    SixDigits("985008");
    SixDigits("687907");
    SixDigits("853269");
    SixDigits("984665");
  }

  lemma GroupsThree()
    ensures Group("640564", 640564)
    ensures Group("039457", 39457)
    ensures Group("584007", 584007)
  {
    SixDigits("640564");
    SixDigits("039457");
    SixDigits("584007");
  }

  lemma GroupsFour()
    ensures Group("913129", 913129)
    ensures Group("639935", 639935)
  {
    SixDigits("913129");
    SixDigits("639935");
  }

  lemma Groups(
      a: string, na: nat, b: string, nb: nat, c: string, nc: nat, d: string, nd: nat,
      e: string, ne: nat, f: string, nf: nat, g: string, ng: nat, h: string, nh: nat,
      i: string, ni: nat, j: string, nj: nat, k: string, nk: nat, l: string, nl: nat,
      m: string, nm: nat)
    requires Group(a, na) && Group(b, nb) && Group(c, nc) && Group(d, nd) && Group(e, ne) && Group(f, nf) && Group(g, ng)
      && Group(h, nh) && Group(i, ni) && Group(j, nj) && Group(k, nk) && Group(l, nl) && Group(m, nm)
    ensures
      var s := a + b + c + d + e + f + g + h + i + j + k + l + m;
      var x := Shift(Shift(Shift(Shift(Shift(Shift(na, nb), nc), nd), ne), nf), ng);
      AllDigits(s) && |s| == 78 && Number(s) == Shift(Shift(Shift(Shift(Shift(Shift(x, nh), ni), nj), nk), nl), nm)
  {
    AppendSix(a, b, nb);
    AppendSix(a + b, c, nc);
    AppendSix(a + b + c, d, nd);
    AppendSix(a + b + c + d, e, ne);
    AppendSix(a + b + c + d + e, f, nf);
    AppendSix(a + b + c + d + e + f, g, ng);
    AppendSix(a + b + c + d + e + f + g, h, nh);
    AppendSix(a + b + c + d + e + f + g + h, i, ni);
    AppendSix(a + b + c + d + e + f + g + h + i, j, nj);
    AppendSix(a + b + c + d + e + f + g + h + i + j, k, nk);
    AppendSix(a + b + c + d + e + f + g + h + i + j + k, l, nl);
    AppendSix(a + b + c + d + e + f + g + h + i + j + k + l, m, nm);
  }

  lemma MaxDenotes()
    ensures AllDigits(MAX_UINT256) && |MAX_UINT256| == 78 && Number(MAX_UINT256) == TWO_TO_THE_256 - 1
  {
    hide Group, Number, AllDigits;
    GroupsOne();
    GroupsTwo();
    GroupsThree();
    GroupsFour();
    Groups(
      "115792", 115792, "089237", 89237, "316195", 316195, "423570", 423570, "985008", 985008,
      "687907", 687907, "853269", 853269, "984665", 984665, "640564", 640564, "039457", 39457,
      "584007", 584007, "913129", 913129, "639935", 639935);
  }

  /** The test of the schema: a canonical numeral, not longer than the maximum and, at its length, not after it. */
  predicate IsUint256Text(s: string) {
    && IsNumeral(s)
    && |s| <= |MAX_UINT256|
    && (|s| < |MAX_UINT256| || TextAtMost(s, MAX_UINT256))
  }

  /** A canonical numeral other than zero is at least the power of ten of its length. */
  lemma NumeralAtLeast(s: string)
    requires AllDigits(s) && s != "" && s[0] != '0'
    ensures Number(s) >= Pow10(|s| - 1)
  {
  }

  /** Of two canonical numerals of different lengths the longer denotes the larger number. */
  lemma LengthDecides(s: string, t: string)
    requires IsNumeral(s) && IsNumeral(t) && |s| < |t|
    ensures Number(s) < Number(t)
  {
  }

  /** The comparison by length and then by text is the comparison of the numbers. */
  lemma ComparesWithMax(s: string, max: string)
    requires IsNumeral(s) && IsNumeral(max)
    ensures |s| <= |max| && (|s| < |max| || TextAtMost(s, max)) <==> Number(s) <= Number(max)
  {
    hide Number, TextAtMost;
    if |s| < |max| {
      LengthDecides(s, max);
    } else if |max| < |s| {
      LengthDecides(max, s);
    } else {
      EqualLengthOrder(s, max);
    }
  }

  /** The test accepts exactly the numerals of the integers below 2^256. */
  lemma Uint256TextIsExact(s: string)
    ensures IsUint256Text(s) <==> exists n: nat :: n < TWO_TO_THE_256 && s == Numeral(n)
  {
    MaxDenotes();
    if IsNumeral(s) {
      ComparesWithMax(s, MAX_UINT256);
      NumeralOfNumber(s);
    }
    forall n: nat | s == Numeral(n) ensures IsNumeral(s) && Number(s) == n {
      NumeralIsCanonical(n);
      NumberOfNumeral(n);
    }
  }

  // ----- origins of private networks

  datatype Address = Address(a: nat, b: nat, c: nat, d: nat)

  function SplitAt(sep: char, s: string): (parts: seq<string>)
    ensures parts != [] && forall p :: p in parts ==> sep !in p
    decreases |s|
  {
    var i := IndexOf(sep, s);
    if i == |s| then
      assert s[..i] == s;
      [s]
    else [s[..i]] + SplitAt(sep, s[i + 1..])
  }

  function JoinWith(sep: char, parts: seq<string>): string
    requires parts != []
  {
    if |parts| == 1 then parts[0] else parts[0] + [sep] + JoinWith(sep, parts[1..])
  }

  lemma {:induction false} JoinOfSplit(sep: char, s: string)
    ensures JoinWith(sep, SplitAt(sep, s)) == s
    decreases |s|
  {
    hide IndexOf;
    var i := IndexOf(sep, s);
    if i < |s| {
      var rest := SplitAt(sep, s[i + 1..]);
      JoinOfSplit(sep, s[i + 1..]);
      assert ([s[..i]] + rest)[1..] == rest;
      assert s == s[..i] + [sep] + s[i + 1..];
      hide SplitAt;
    }
  }

  lemma IndexOfPart(sep: char, part: string, rest: string)
    requires sep !in part
    ensures IndexOf(sep, part) == |part| && IndexOf(sep, part + [sep] + rest) == |part|
  {
    var t, i := part + [sep] + rest, IndexOf(sep, part + [sep] + rest);
    assert t[|part|] == sep && forall k :: 0 <= k < |part| ==> t[k] == part[k] && part[k] in part;
    assert forall k :: 0 <= k < i ==> t[..i][k] == t[k] && t[k] in t[..i];
  }

  lemma SplitOne(sep: char, part: string, rest: string)
    requires sep !in part
    ensures SplitAt(sep, part) == [part]
    ensures SplitAt(sep, part + [sep] + rest) == [part] + SplitAt(sep, rest)
  {
    hide IndexOf;
    var t := part + [sep] + rest;
    IndexOfPart(sep, part, rest);
    assert t[..|part|] == part && t[|part| + 1..] == rest;
  }

  lemma {:induction false} SplitOfJoin(sep: char, parts: seq<string>)
    requires parts != [] && forall p :: p in parts ==> sep !in p
    ensures SplitAt(sep, JoinWith(sep, parts)) == parts
  {
    hide IndexOf, SplitAt;
    assert parts[0] in parts;
    if |parts| == 1 {
      SplitOne(sep, parts[0], "");
    } else {
      SplitOne(sep, parts[0], JoinWith(sep, parts[1..]));
      SplitOfJoin(sep, parts[1..]);
      assert parts == [parts[0]] + parts[1..];
    }
  }

  const SCHEME := "http://"
  const PORT := ":80"

  predicate EndsWith(s: string, suffix: string) {
    |s| >= |suffix| && s[|s| - |suffix|..] == suffix
  }

  /** One to three digits without a superfluous zero. */
  predicate IsOctetText(s: string) {
    IsNumeral(s) && |s| <= 3
  }

  predicate IsPrivate(x: Address) {
    || x.a == 10
    || (x.a == 172 && 16 <= x.b <= 31)
    || (x.a == 192 && x.b == 168)
  }

  /** Four octets of a private address. */
  function HostAddress(host: string): Option<Address> {
    var parts := SplitAt('.', host);
    if |parts| != 4 || !(forall p :: p in parts ==> IsOctetText(p)) then None
    else
      assert parts[0] in parts && parts[1] in parts && parts[2] in parts && parts[3] in parts;
      var x := Address(Number(parts[0]), Number(parts[1]), Number(parts[2]), Number(parts[3]));
      if x.a > 255 || x.b > 255 || x.c > 255 || x.d > 255 || !IsPrivate(x) then None else Some(x)
  }

  /** The address of an accepted origin: the fixed scheme, four octets, and no port but the default one. */
  function PrivateLanOrigin(value: string): Option<Address> {
    if !(SCHEME <= value) then None
    else
      var host := value[|SCHEME|..];
      HostAddress(if EndsWith(host, PORT) then host[..|host| - |PORT|] else host)
  }

  // ----- what it accepts

  predicate IsAddress(x: Address) {
    x.a <= 255 && x.b <= 255 && x.c <= 255 && x.d <= 255
  }

  /** The 32 bits of an address. */
  function Bits(x: Address): nat {
    x.a * 0x100_0000 + x.b * 0x1_0000 + x.c * 0x100 + x.d
  }

  /** The blocks 10.0.0.0/8, 172.16.0.0/12 and 192.168.0.0/16 of section 3 of RFC 1918. */
  predicate InPrivateBlock(bits: nat) {
    bits / 0x100_0000 == 10 || bits / 0x10_0000 == 0xAC1 || bits / 0x1_0000 == 0xC0A8
  }

  function Dotted(x: Address): string {
    JoinWith('.', [Numeral(x.a), Numeral(x.b), Numeral(x.c), Numeral(x.d)])
  }

  lemma PrivateIsBlock(x: Address)
    requires IsAddress(x)
    ensures IsPrivate(x) <==> InPrivateBlock(Bits(x))
  {
  }

  function Parts(x: Address): seq<string> {
    [Numeral(x.a), Numeral(x.b), Numeral(x.c), Numeral(x.d)]
  }

  lemma OctetText(n: nat)
    ensures IsNumeral(Numeral(n)) && Number(Numeral(n)) == n
    ensures n <= 255 ==> IsOctetText(Numeral(n))
  {
    NumeralIsCanonical(n);
    NumberOfNumeral(n);
    if |Numeral(n)| > 3 {
      NumeralAtLeast(Numeral(n));
      Pow10Monotone(3, |Numeral(n)| - 1);
      assert Pow10(3) == 1_000;
    }
  }

  /** An accepted host is the dotted text of its address. */
  lemma PartsAreNumerals(parts: seq<string>)
    requires |parts| == 4 && IsOctetText(parts[0]) && IsOctetText(parts[1]) && IsOctetText(parts[2]) && IsOctetText(parts[3])
    ensures parts == Parts(Address(Number(parts[0]), Number(parts[1]), Number(parts[2]), Number(parts[3])))
  {
    hide Number, Numeral;
    NumeralOfNumber(parts[0]);
    NumeralOfNumber(parts[1]);
    NumeralOfNumber(parts[2]);
    NumeralOfNumber(parts[3]);
  }

  /** The parts of a dotted text are the numerals it was made of, and it has no colon. */
  lemma DottedSplits(x: Address)
    ensures SplitAt('.', Dotted(x)) == Parts(x) && ':' !in Dotted(x)
  {
    hide Numeral, SplitAt;
    var parts := Parts(x);
    SplitOfJoin('.', parts);
    assert parts[1..][1..][1..] == [parts[3]] && parts[1..][1..] == [parts[2], parts[3]] && parts[1..] == [parts[1], parts[2], parts[3]];
    assert JoinWith('.', [parts[2], parts[3]]) == parts[2] + "." + parts[3];
    assert JoinWith('.', parts[1..]) == parts[1] + "." + (parts[2] + "." + parts[3]);
    assert Dotted(x) == parts[0] + "." + (parts[1] + "." + (parts[2] + "." + parts[3]));
  }

  lemma HostIsExact(host: string, x: Address)
    ensures HostAddress(host) == Some(x) <==> host == Dotted(x) && IsAddress(x) && InPrivateBlock(Bits(x))
  {
    hide Number, Numeral, IsPrivate, Bits, InPrivateBlock;
    var parts := SplitAt('.', host);
    if HostAddress(host) == Some(x) {
      assert parts[0] in parts && parts[1] in parts && parts[2] in parts && parts[3] in parts;
      PartsAreNumerals(parts);
      JoinOfSplit('.', host);
      assert host == JoinWith('.', Parts(x));
      PrivateIsBlock(x);
    }
    if host == Dotted(x) && IsAddress(x) && InPrivateBlock(Bits(x)) {
      DottedSplits(x);
      OctetText(x.a);
      OctetText(x.b);
      OctetText(x.c);
      OctetText(x.d);
      PrivateIsBlock(x);
    }
  }

  /**
   The parser accepts exactly the canonical dotted texts of private addresses, after the scheme and with the default port
   or none, and yields that address.
   */
  lemma LanOriginIsExact(value: string, x: Address)
    ensures PrivateLanOrigin(value) == Some(x) <==>
              && IsAddress(x) && InPrivateBlock(Bits(x))
              && (value == "http://" + Dotted(x) || value == "http://" + Dotted(x) + ":80")
  {
    hide HostAddress, Dotted, InPrivateBlock, Bits, IsAddress;
    DottedSplits(x);
    if SCHEME <= value {
      var host := value[|SCHEME|..];
      assert value == SCHEME + host;
      if EndsWith(host, PORT) {
        var bare := host[..|host| - |PORT|];
        assert host == bare + PORT;
        HostIsExact(bare, x);
        assert host != Dotted(x) by {
          assert host[|bare|] == ':';
        }
        assert value == SCHEME + Dotted(x) + PORT <==> bare == Dotted(x);
      } else {
        HostIsExact(host, x);
      }
    }
  }
}
