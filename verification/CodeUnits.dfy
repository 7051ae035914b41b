/** Strings as the source has them, sequences of UTF-16 code units, with the order in which property names are sorted. */
module CodeUnits {
  type Unit = u: int | 0 <= u < 0x1_0000 witness 0

  type Text = seq<Unit>

  /** The code units of a string of ASCII characters. */
  function Ascii(s: string): (t: Text)
    ensures |t| == |s| && forall i :: 0 <= i < |s| && s[i] < '\U{80}' ==> t[i] == s[i] as int
  {
    seq(|s|, i requires 0 <= i < |s| => if s[i] < '\U{80}' then s[i] as int else 0xFFFD)
  }

  // ----- surrogates

  predicate IsHigh(u: Unit) {
    0xD800 <= u <= 0xDBFF
  }

  predicate IsLow(u: Unit) {
    0xDC00 <= u <= 0xDFFF
  }

  /** The halves are told by their top six bits (section 3.9 of the Unicode standard). */
  lemma SurrogateBits(u: Unit)
    ensures IsHigh(u) <==> u / 0x400 == 0x36
    ensures IsLow(u) <==> u / 0x400 == 0x37
  {
  }

  predicate StartsWithPair(t: Text) {
    |t| >= 2 && IsHigh(t[0]) && IsLow(t[1])
  }

  /** Every surrogate is half of a pair, so that an encoding as UTF-8 loses nothing. */
  predicate IsUnicode(t: Text) {
    if t == [] then true
    else if StartsWithPair(t) then IsUnicode(t[2..])
    else !IsHigh(t[0]) && !IsLow(t[0]) && IsUnicode(t[1..])
  }

  /** The unit stands alone, or next to the other half of its pair, the high one first. */
  predicate Paired(t: Text, i: nat)
    requires i < |t|
  {
    (IsHigh(t[i]) ==> i + 1 < |t| && IsLow(t[i + 1])) && (IsLow(t[i]) ==> i > 0 && IsHigh(t[i - 1]))
  }

  lemma {:induction false} UnicodeIff(t: Text)
    ensures IsUnicode(t) <==> forall i: nat :: i < |t| ==> Paired(t, i)
    decreases |t|
  {
    if t != [] && (StartsWithPair(t) || (!IsHigh(t[0]) && !IsLow(t[0]))) {
      var n := if StartsWithPair(t) then 2 else 1;
      UnicodeIff(t[n..]);
      forall i: nat | i < |t| - n ensures Paired(t[n..], i) <==> Paired(t, i + n) {
        assert t[n..][i] == t[i + n];
      }
      assert Paired(t, 0) && Paired(t, n - 1);
      assert (forall i: nat :: i < |t| - n ==> Paired(t[n..], i)) ==> forall i: nat :: i < |t| ==> Paired(t, i) by {
        assert forall i: nat :: n <= i < |t| ==> Paired(t, i) == Paired(t[n..], i - n);
      }
    } else if t != [] {
      assert !Paired(t, 0);
    }
  }

  lemma {:induction false} UnicodeConcat(a: Text, b: Text)
    requires IsUnicode(a) && IsUnicode(b)
    ensures IsUnicode(a + b)
    decreases |a|
  {
    if a == [] {
      assert a + b == b;
    } else if StartsWithPair(a) {
      UnicodeConcat(a[2..], b);
      assert (a + b)[2..] == a[2..] + b;
    } else {
      UnicodeConcat(a[1..], b);
      assert (a + b)[1..] == a[1..] + b;
    }
  }

  lemma {:induction false} PlainIsUnicode(t: Text)
    requires forall k :: 0 <= k < |t| ==> t[k] < 0xD800
    ensures IsUnicode(t)
  {
    if t != [] {
      PlainIsUnicode(t[1..]);
    }
  }

  // ----- order

  predicate Less(a: Text, b: Text) {
    if b == [] then false
    else if a == [] then true
    else a[0] < b[0] || (a[0] == b[0] && Less(a[1..], b[1..]))
  }

  /** The first unit in which two texts differ decides, and a proper beginning comes first. */
  lemma {:induction false} LessIsLexicographic(a: Text, b: Text)
    ensures Less(a, b) <==>
              exists i :: 0 <= i <= |a| && i < |b| && a[..i] == b[..i] && (i == |a| || a[i] < b[i])
  {
    forall i | 0 < i <= |a| && i <= |b| && a[..i] == b[..i] ensures a[0] == b[0] {
      assert a[..i][0] == b[..i][0];
    }
    if a != [] && b != [] && a[0] == b[0] {
      LessIsLexicographic(a[1..], b[1..]);
      if i :| 0 <= i <= |a[1..]| && i < |b[1..]| && a[1..][..i] == b[1..][..i] && (i == |a[1..]| || a[1..][i] < b[1..][i]) {
        assert a[..i + 1] == [a[0]] + a[1..][..i] && b[..i + 1] == [b[0]] + b[1..][..i];
      }
      if i :| 0 <= i <= |a| && i < |b| && a[..i] == b[..i] && (i == |a| || a[i] < b[i]) {
        assert i > 0 && a[1..][..i - 1] == a[..i][1..] && b[1..][..i - 1] == b[..i][1..];
      }
    } else {
      assert b != [] ==> a[..0] == b[..0];
    }
  }

  lemma {:induction false} LessIsIrreflexive(a: Text)
    ensures !Less(a, a)
  {
    if a != [] {
      LessIsIrreflexive(a[1..]);
    }
  }

  lemma {:induction false} LessIsTotal(a: Text, b: Text)
    ensures Less(a, b) || a == b || Less(b, a)
    ensures !(Less(a, b) && Less(b, a)) && !Less(a, a)
    decreases |a| + |b|
  {
    if a != [] {
      LessIsIrreflexive(a);
      if b != [] {
        LessIsTotal(a[1..], b[1..]);
        assert a == [a[0]] + a[1..] && b == [b[0]] + b[1..];
      }
    }
  }

  lemma {:induction false} LessIsTransitive(a: Text, b: Text, c: Text)
    requires Less(a, b) && Less(b, c)
    ensures Less(a, c)
    decreases |a|
  {
    if a != [] && a[0] == b[0] == c[0] {
      LessIsTransitive(a[1..], b[1..], c[1..]);
    }
  }

  predicate StrictlySorted(ts: seq<Text>) {
    forall i, j :: 0 <= i < j < |ts| ==> Less(ts[i], ts[j])
  }

  /** Adds a text to a sorted list that may already hold it. */
  function Insert(t: Text, ts: seq<Text>): (r: seq<Text>)
    requires StrictlySorted(ts)
    ensures forall x :: x in r <==> x == t || x in ts
    ensures StrictlySorted(r)
  {
    if ts == [] then [t]
    else if t == ts[0] then ts
    else if Less(t, ts[0]) then
      assert forall k :: 0 < k < |ts| ==> Less(t, ts[k]) by {
        forall k | 0 < k < |ts| ensures Less(t, ts[k]) { LessIsTransitive(t, ts[0], ts[k]); }
      }
      [t] + ts
    else
      LessIsTotal(t, ts[0]);
      assert forall x :: x in ts[1..] ==> x in ts && Less(ts[0], x);
      [ts[0]] + Insert(t, ts[1..])
  }

  /** A strictly sorted list is determined by its elements. */
  lemma {:induction false} SortedIsUnique(a: seq<Text>, b: seq<Text>)
    requires StrictlySorted(a) && StrictlySorted(b)
    requires forall x :: x in a <==> x in b
    ensures a == b
    decreases |a|
  {
    if a == [] {
      MembersDetermineEmptiness(b);
    } else {
      assert a[0] in a && a[0] in b;
      assert b[0] in b && b[0] in a;
      HeadsAgree(a, b);
      forall x ensures x in a[1..] <==> x in b[1..] {
        TailMember(a, x);
        TailMember(b, x);
      }
      SortedIsUnique(a[1..], b[1..]);
      assert a == [a[0]] + a[1..] && b == [b[0]] + b[1..];
    }
  }

  lemma MembersDetermineEmptiness(ts: seq<Text>)
    ensures ts == [] || exists t :: t in ts
  {
    if ts != [] {
      assert ts[0] in ts;
    }
  }

  lemma HeadsAgree(a: seq<Text>, b: seq<Text>)
    requires StrictlySorted(a) && StrictlySorted(b) && a != [] && b != []
    requires a[0] in b && b[0] in a
    ensures a[0] == b[0]
  {
    var i :| 0 <= i < |b| && b[i] == a[0];
    var j :| 0 <= j < |a| && a[j] == b[0];
    LessIsTotal(a[0], b[0]);
  }

  lemma TailMember(ts: seq<Text>, x: Text)
    requires StrictlySorted(ts) && ts != []
    ensures x in ts[1..] <==> x in ts && x != ts[0]
  {
    LessIsTotal(ts[0], ts[0]);
    if x in ts && x != ts[0] {
      var i :| 0 <= i < |ts| && ts[i] == x;
      assert ts[1..][i - 1] == x;
    }
  }
}
