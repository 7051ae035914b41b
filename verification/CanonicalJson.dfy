/** The canonical JSON text whose hash identifies a document, and a decoder that shows what the text determines. */
module CanonicalJson {
  import opened Options
  import opened CodeUnits
  import opened JsonStrings

  // ----- values and what they mean

  predicate IsNumberUnit(u: Unit) {
    0x30 <= u <= 0x39 || u in {0x2B, 0x2D, 0x2E, 0x65}
  }

  predicate StartsNumber(t: Text) {
    t != [] && (0x30 <= t[0] <= 0x39 || t[0] == 0x2D)
  }

  predicate IsNumberText(t: Text) {
    StartsNumber(t) && forall k :: 0 <= k < |t| ==> IsNumberUnit(t[k])
  }

  /** Digits, signs, the point and the exponent mark; a number starts with a digit or a minus. */
  lemma NumberUnits(u: Unit)
    ensures IsNumberUnit(u) <==> u in Ascii("0123456789+-.e")
    ensures StartsNumber([u]) <==> u in Ascii("0123456789-")
  {
    assert Ascii("0123456789-") == [0x30, 0x31, 0x32, 0x33, 0x34, 0x35, 0x36, 0x37, 0x38, 0x39, 0x2D];
    assert Ascii("0123456789+-.e") == [0x30, 0x31, 0x32, 0x33, 0x34, 0x35, 0x36, 0x37, 0x38, 0x39, 0x2B, 0x2D, 0x2E, 0x65];
  }

  /** A finite number other than -0 is identified by the text ECMAScript prints for it. */
  type NumberText = t: Text | IsNumberText(t) witness [0x30]

  datatype Number = Finite(text: NumberText) | NegativeZero | NotANumber | Infinite(negative: bool)

  /** A value as the program holds it; an object lists its properties in the order they were set, the last one counts. */
  datatype Json =
    | Null
    | Bool(b: bool)
    | Num(n: Number)
    | Str(s: Text)
    | Arr(items: seq<Json>)
    | Obj(fields: seq<Field>)

  datatype Field = Field(key: Text, value: Json)

  /** A JSON value without an order of keys. */
  datatype Doc =
    | DNull
    | DBool(b: bool)
    | DNumber(text: NumberText)
    | DString(s: Text)
    | DArray(items: seq<Doc>)
    | DObject(members: map<Text, Doc>)

  function Keys(fields: seq<Field>): (r: set<Text>) {
    set f | f in fields :: f.key
  }

  function LastIndex(fields: seq<Field>, key: Text): (i: nat)
    requires key in Keys(fields)
    ensures i < |fields| && fields[i].key == key
    ensures forall k :: i < k < |fields| ==> fields[k].key != key
  {
    var last := |fields| - 1;
    if fields[last].key == key then last
    else
      assert fields == fields[..last] + [fields[last]];
      LastIndex(fields[..last], key)
  }

  function Lookup(fields: seq<Field>, key: Text): Json
    requires key in Keys(fields)
  {
    fields[LastIndex(fields, key)].value
  }

  const ZERO: NumberText := [0x30]

  /** JSON has no non-finite numbers and one zero. */
  function NumberMeaning(n: Number): Doc {
    match n
    case Finite(text) => DNumber(text)
    case NegativeZero => DNumber(ZERO)
    case _ => DNull
  }

  function Meaning(v: Json): Doc
    decreases v
  {
    match v
    case Null => DNull
    case Bool(b) => DBool(b)
    case Num(n) => NumberMeaning(n)
    case Str(s) => DString(s)
    case Arr(items) => DArray(seq(|items|, i requires 0 <= i < |items| => Meaning(items[i])))
    case Obj(fields) => DObject(map k | k in Keys(fields) :: Meaning(fields[LastIndex(fields, k)].value))
  }

  // ----- the canonical text

  const NULL: Text := [0x6E, 0x75, 0x6C, 0x6C]
  const TRUE: Text := [0x74, 0x72, 0x75, 0x65]
  const FALSE: Text := [0x66, 0x61, 0x6C, 0x73, 0x65]
  const COMMA: Unit := 0x2C
  const COLON: Unit := 0x3A
  const OPEN_BRACKET: Unit := 0x5B
  const CLOSE_BRACKET: Unit := 0x5D
  const OPEN_BRACE: Unit := 0x7B
  const CLOSE_BRACE: Unit := 0x7D

  function SortedKeys(fields: seq<Field>): (ks: seq<Text>)
    ensures StrictlySorted(ks)
    ensures forall k :: k in ks <==> k in Keys(fields)
  {
    if fields == [] then []
    else
      var last := |fields| - 1;
      assert fields == fields[..last] + [fields[last]];
      Insert(fields[last].key, SortedKeys(fields[..last]))
  }

  function NumberCanonical(n: Number): Text {
    match n
    case Finite(text) => text
    case NegativeZero => ZERO
    case _ => NULL
  }

  function Canonicalize(v: Json): Text
    decreases v, 0
  {
    match v
    case Null => NULL
    case Bool(b) => if b then TRUE else FALSE
    case Num(n) => NumberCanonical(n)
    case Str(s) => Quote(s)
    case Arr(items) => [OPEN_BRACKET] + Items(items) + [CLOSE_BRACKET]
    case Obj(fields) => [OPEN_BRACE] + Members(fields, SortedKeys(fields)) + [CLOSE_BRACE]
  }

  function Items(items: seq<Json>): Text
    decreases items, 0
  {
    if items == [] then []
    else Canonicalize(items[0]) + (if |items| == 1 then [] else [COMMA] + Items(items[1..]))
  }

  function Members(fields: seq<Field>, keys: seq<Text>): Text
    requires forall k :: k in keys ==> k in Keys(fields)
    decreases fields, |keys|
  {
    if keys == [] then []
    else
      assert keys[0] in keys;
      Quote(keys[0]) + [COLON] + Canonicalize(fields[LastIndex(fields, keys[0])].value)
      + (if |keys| == 1 then [] else [COMMA] + Members(fields, keys[1..]))
  }

  // ----- the decoder, in the code units of the JSON grammar (section 2 of RFC 8259)

  /** How many units at the front can belong to a number. */
  function NumberLength(t: Text): (n: nat)
    ensures n <= |t| && forall k :: 0 <= k < n ==> IsNumberUnit(t[k])
    ensures n < |t| ==> !IsNumberUnit(t[n])
  {
    if t == [] || !IsNumberUnit(t[0]) then 0 else 1 + NumberLength(t[1..])
  }

  function Decode(t: Text): (r: Option<(Doc, Text)>)
    ensures r.Some? ==> |r.value.1| < |t|
    decreases |t|, 0
  {
    if t == [] then None
    else if t[0] == 0x22 then
      match ReadBody(t[1..])
      case None => None
      case Some((s, rest)) => Some((DString(s), rest))
    else if t[0] == 0x5B then
      if |t| >= 2 && t[1] == 0x5D then Some((DArray([]), t[2..]))
      else
        match DecodeItems(t[1..])
        case None => None
        case Some((ds, rest)) => Some((DArray(ds), rest))
    else if t[0] == 0x7B then
      if |t| >= 2 && t[1] == 0x7D then Some((DObject(map[]), t[2..]))
      else
        match DecodeMembers(t[1..])
        case None => None
        case Some((m, rest)) => Some((DObject(m), rest))
    else if StartsNumber(t) then
      var n := NumberLength(t);
      assert n > 0 && IsNumberText(t[..n]);
      Some((DNumber(t[..n]), t[n..]))
    else if [0x6E, 0x75, 0x6C, 0x6C] <= t then Some((DNull, t[4..]))
    else if [0x74, 0x72, 0x75, 0x65] <= t then Some((DBool(true), t[4..]))
    else if [0x66, 0x61, 0x6C, 0x73, 0x65] <= t then Some((DBool(false), t[5..]))
    else None
  }

  function DecodeItems(t: Text): (r: Option<(seq<Doc>, Text)>)
    ensures r.Some? ==> |r.value.1| < |t|
    decreases |t|, 1
  {
    match Decode(t)
    case None => None
    case Some((d, rest)) =>
      if rest == [] then None
      else if rest[0] == 0x5D then Some(([d], rest[1..]))
      else if rest[0] == 0x2C then
        match DecodeItems(rest[1..])
        case None => None
        case Some((ds, after)) => Some(([d] + ds, after))
      else None
  }

  function DecodeMembers(t: Text): (r: Option<(map<Text, Doc>, Text)>)
    ensures r.Some? ==> |r.value.1| < |t|
    decreases |t|, 1
  {
    if t == [] || t[0] != 0x22 then None
    else
      match ReadBody(t[1..])
      case None => None
      case Some((key, colon)) =>
        if colon == [] || colon[0] != 0x3A then None
        else
          match Decode(colon[1..])
          case None => None
          case Some((d, rest)) =>
            if rest == [] then None
            else if rest[0] == 0x7D then Some((map[key := d], rest[1..]))
            else if rest[0] == 0x2C then
              match DecodeMembers(rest[1..])
              case None => None
              case Some((m, after)) => Some((map[key := d] + m, after))
            else None
  }

  // ----- the decoder recovers the value and the unread rest

  predicate PrintsNumber(v: Json) {
    v.Num? && NumberMeaning(v.n).DNumber?
  }

  /** A number ends where the text does, or before a unit that no number has. */
  predicate Delimited(v: Json, rest: Text) {
    PrintsNumber(v) && rest != [] ==> !IsNumberUnit(rest[0])
  }

  lemma {:induction false} NumberLengthExact(t: Text, rest: Text)
    requires forall k :: 0 <= k < |t| ==> IsNumberUnit(t[k])
    requires rest != [] ==> !IsNumberUnit(rest[0])
    ensures NumberLength(t + rest) == |t|
  {
    if t == [] {
      assert t + rest == rest;
    } else {
      NumberLengthExact(t[1..], rest);
      assert (t + rest)[1..] == t[1..] + rest;
    }
  }

  lemma DecodeNumber(t: NumberText, rest: Text)
    requires rest != [] ==> !IsNumberUnit(rest[0])
    ensures Decode(t + rest) == Some((DNumber(t), rest))
  {
    NumberLengthExact(t, rest);
    assert (t + rest)[..|t|] == t && (t + rest)[|t|..] == rest;
  }

  lemma DecodeLiteral(rest: Text)
    ensures Decode(NULL + rest) == Some((DNull, rest))
    ensures Decode(TRUE + rest) == Some((DBool(true), rest))
    ensures Decode(FALSE + rest) == Some((DBool(false), rest))
  {
    assert (NULL + rest)[4..] == rest && (TRUE + rest)[4..] == rest && (FALSE + rest)[5..] == rest;
  }

  lemma DecodeString(s: Text, rest: Text)
    ensures Decode(Quote(s) + rest) == Some((DString(s), rest))
  {
    var t := Quote(s) + rest;
    ReadQuoted(s, rest);
    assert t[1..] == QuoteBody(s) + [QUOTE] + rest;
  }

  /** Every canonical text starts with a unit that can start nothing else of what may follow a bracket. */
  lemma FirstUnit(v: Json)
    ensures Canonicalize(v) != [] && Canonicalize(v)[0] !in {CLOSE_BRACKET, CLOSE_BRACE, COMMA, 0x75}
  {
  }

  lemma {:induction false} DecodeCanonical(v: Json, rest: Text)
    requires Delimited(v, rest)
    ensures Decode(Canonicalize(v) + rest) == Some((Meaning(v), rest))
    decreases v, 0
  {
    match v
    case Null => DecodeLiteral(rest);
    case Bool(_) => DecodeLiteral(rest);
    case Num(n) =>
      if PrintsNumber(v) {
        DecodeNumber(NumberCanonical(n), rest);
      } else {
        DecodeLiteral(rest);
      }
    case Str(s) => DecodeString(s, rest);
    case Arr(items) => DecodeArray(items, rest);
    case Obj(fields) => DecodeObject(fields, rest);
  }

  /** A number that the rest continues is read past its end. */
  lemma ContinuedNumberIsLost(v: Json, rest: Text)
    requires PrintsNumber(v) && rest != [] && IsNumberUnit(rest[0])
    ensures Decode(Canonicalize(v) + rest) != Some((Meaning(v), rest))
  {
    var text := NumberCanonical(v.n);
    var t := text + rest;
    assert forall k :: 0 <= k <= |text| ==> IsNumberUnit(t[k]);
    assert NumberLength(t) > |text|;
  }

  /** The decoder gives back the value and the unread rest exactly when the rest does not continue a number. */
  lemma DecodesExactly(v: Json, rest: Text)
    ensures Decode(Canonicalize(v) + rest) == Some((Meaning(v), rest)) <==> Delimited(v, rest)
  {
    if Delimited(v, rest) {
      DecodeCanonical(v, rest);
    } else {
      ContinuedNumberIsLost(v, rest);
    }
  }

  lemma {:induction false} DecodeArray(items: seq<Json>, rest: Text)
    ensures Decode(Canonicalize(Arr(items)) + rest) == Some((Meaning(Arr(items)), rest))
    decreases items, 2
  {
    hide DecodeItems, Items;
    var t := Canonicalize(Arr(items)) + rest;
    var body := Items(items) + [CLOSE_BRACKET] + rest;
    assert t[1..] == body;
    if items == [] {
      EmptyItems();
      assert t[2..] == rest;
      assert Meaning(Arr(items)).items == [];
    } else {
      ItemsStart(items);
      DecodeItemTexts(items, rest);
    }
  }

  lemma EmptyItems()
    ensures Items([]) == []
  {
  }

  lemma ItemsStart(items: seq<Json>)
    requires items != []
    ensures Items(items) != [] && Items(items)[0] != CLOSE_BRACKET
  {
    FirstUnit(items[0]);
  }

  function Meanings(items: seq<Json>): seq<Doc> {
    seq(|items|, i requires 0 <= i < |items| => Meaning(items[i]))
  }

  lemma LastItem(t: Text, d: Doc, rest: Text)
    requires Decode(t) == Some((d, [CLOSE_BRACKET] + rest))
    ensures DecodeItems(t) == Some(([d], rest))
  {
    assert ([CLOSE_BRACKET] + rest)[1..] == rest;
  }

  lemma NextItem(t: Text, d: Doc, more: Text, ds: seq<Doc>, rest: Text)
    requires Decode(t) == Some((d, [COMMA] + more)) && DecodeItems(more) == Some((ds, rest))
    ensures DecodeItems(t) == Some(([d] + ds, rest))
  {
    assert ([COMMA] + more)[1..] == more;
  }

  lemma {:induction false} DecodeItemTexts(items: seq<Json>, rest: Text)
    requires items != []
    ensures DecodeItems(Items(items) + [CLOSE_BRACKET] + rest) == Some((Meanings(items), rest))
    decreases items, 1
  {
    hide Decode, DecodeItems, Canonicalize, Meaning;
    var t := Items(items) + [CLOSE_BRACKET] + rest;
    if |items| == 1 {
      var after := [CLOSE_BRACKET] + rest;
      assert t == Canonicalize(items[0]) + after;
      DecodeCanonical(items[0], after);
      LastItem(t, Meaning(items[0]), rest);
      assert Meanings(items) == [Meaning(items[0])];
    } else {
      var more := Items(items[1..]) + [CLOSE_BRACKET] + rest;
      assert t == Canonicalize(items[0]) + ([COMMA] + more);
      DecodeCanonical(items[0], [COMMA] + more);
      DecodeItemTexts(items[1..], rest);
      NextItem(t, Meaning(items[0]), more, Meanings(items[1..]), rest);
      assert Meanings(items) == [Meaning(items[0])] + Meanings(items[1..]);
    }
  }

  lemma {:induction false} DecodeObject(fields: seq<Field>, rest: Text)
    ensures Decode(Canonicalize(Obj(fields)) + rest) == Some((Meaning(Obj(fields)), rest))
    decreases fields, |SortedKeys(fields)| + 1
  {
    hide DecodeMembers, Members;
    var keys := SortedKeys(fields);
    var t := Canonicalize(Obj(fields)) + rest;
    assert t[1..] == Members(fields, keys) + [CLOSE_BRACE] + rest;
    if keys == [] {
      EmptyMembers(fields);
      assert t[2..] == rest;
      assert Keys(fields) == {};
    } else {
      MembersStart(fields, keys);
      DecodeMemberTexts(fields, keys, rest);
      assert Selected(fields, keys) == Meaning(Obj(fields)).members;
    }
  }

  lemma EmptyMembers(fields: seq<Field>)
    ensures Members(fields, []) == []
  {
  }

  lemma MembersStart(fields: seq<Field>, keys: seq<Text>)
    requires keys != [] && forall k :: k in keys ==> k in Keys(fields)
    ensures Members(fields, keys) != [] && Members(fields, keys)[0] == QUOTE
  {
  }

  function Selected(fields: seq<Field>, keys: seq<Text>): map<Text, Doc>
    requires forall k :: k in keys ==> k in Keys(fields)
  {
    map k | k in keys :: Meaning(Lookup(fields, k))
  }

  lemma LastMember(key: Text, value: Text, d: Doc, rest: Text)
    requires Decode(value) == Some((d, [CLOSE_BRACE] + rest))
    ensures DecodeMembers(Quote(key) + ([COLON] + value)) == Some((map[key := d], rest))
  {
    ReadKey(key, value);
    assert ([CLOSE_BRACE] + rest)[1..] == rest;
  }

  lemma NextMember(key: Text, value: Text, d: Doc, more: Text, m: map<Text, Doc>, rest: Text)
    requires Decode(value) == Some((d, [COMMA] + more)) && DecodeMembers(more) == Some((m, rest))
    ensures DecodeMembers(Quote(key) + ([COLON] + value)) == Some((map[key := d] + m, rest))
  {
    ReadKey(key, value);
    assert ([COMMA] + more)[1..] == more;
  }

  lemma ReadKey(key: Text, value: Text)
    ensures var t := Quote(key) + ([COLON] + value);
            && t != [] && t[0] == QUOTE && ReadBody(t[1..]) == Some((key, [COLON] + value))
            && ([COLON] + value)[1..] == value
  {
    var t := Quote(key) + ([COLON] + value);
    ReadQuoted(key, [COLON] + value);
    assert t[1..] == QuoteBody(key) + [QUOTE] + ([COLON] + value);
  }

  /** What follows the value of the first of these members. */
  function AfterFirst(fields: seq<Field>, keys: seq<Text>, rest: Text): Text
    requires keys != [] && forall k :: k in keys ==> k in Keys(fields)
  {
    if |keys| == 1 then [CLOSE_BRACE] + rest else [COMMA] + (Members(fields, keys[1..]) + [CLOSE_BRACE] + rest)
  }

  lemma MembersSplit(fields: seq<Field>, keys: seq<Text>, rest: Text)
    requires keys != [] && forall k :: k in keys ==> k in Keys(fields)
    ensures keys[0] in keys
    ensures Members(fields, keys) + [CLOSE_BRACE] + rest
         == Quote(keys[0]) + ([COLON] + (Canonicalize(Lookup(fields, keys[0])) + AfterFirst(fields, keys, rest)))
  {
    hide Quote, Canonicalize;
    var tail := if |keys| == 1 then [] else [COMMA] + Members(fields, keys[1..]);
    Regroup(Quote(keys[0]), [COLON], Canonicalize(Lookup(fields, keys[0])), tail, [CLOSE_BRACE], rest);
    RegroupTail(if |keys| == 1 then [] else Members(fields, keys[1..]), [CLOSE_BRACE], rest);
  }

  lemma Regroup(a: Text, b: Text, c: Text, d: Text, e: Text, f: Text)
    ensures a + b + c + d + e + f == a + (b + (c + (d + e + f)))
  {
  }

  lemma RegroupTail(more: Text, close: Text, rest: Text)
    ensures [] + close + rest == close + rest
    ensures [COMMA] + more + close + rest == [COMMA] + (more + close + rest)
  {
  }

  lemma SelectedSplit(fields: seq<Field>, keys: seq<Text>)
    requires keys != [] && forall k :: k in keys ==> k in Keys(fields)
    ensures keys[0] in keys
    ensures Selected(fields, keys) == map[keys[0] := Meaning(Lookup(fields, keys[0]))] + Selected(fields, keys[1..])
  {
    hide Meaning;
  }

  lemma {:induction false} DecodeMemberTexts(fields: seq<Field>, keys: seq<Text>, rest: Text)
    requires keys != [] && forall k :: k in keys ==> k in Keys(fields)
    ensures DecodeMembers(Members(fields, keys) + [CLOSE_BRACE] + rest) == Some((Selected(fields, keys), rest))
    decreases fields, |keys|
  {
    hide Decode, DecodeMembers, Members, Canonicalize, Meaning, Quote;
    MembersSplit(fields, keys, rest);
    SelectedSplit(fields, keys);
    var v := fields[LastIndex(fields, keys[0])].value;
    var after := AfterFirst(fields, keys, rest);
    DecodeCanonical(v, after);
    if |keys| == 1 {
      LastMember(keys[0], Canonicalize(v) + after, Meaning(v), rest);
      assert keys[1..] == [] && Selected(fields, keys[1..]) == map[];
      assert Selected(fields, keys) == map[keys[0] := Meaning(v)];
    } else {
      DecodeMemberTexts(fields, keys[1..], rest);
      NextMember(keys[0], Canonicalize(v) + after, Meaning(v), after[1..], Selected(fields, keys[1..]), rest);
    }
  }

  // ----- what the canonical text determines

  lemma {:induction false} SameMeaningSameText(v: Json, w: Json)
    requires Meaning(v) == Meaning(w)
    ensures Canonicalize(v) == Canonicalize(w)
    decreases v, 0
  {
    match v
    case Arr(items) =>
      forall i | 0 <= i < |items| ensures Meaning(items[i]) == Meaning(w.items[i]) {
        assert Meaning(v).items[i] == Meaning(w).items[i];
      }
      SameItems(items, w.items);
    case Obj(fields) =>
      assert Keys(fields) == Meaning(v).members.Keys == Keys(w.fields);
      SortedIsUnique(SortedKeys(fields), SortedKeys(w.fields));
      forall k | k in Keys(fields) ensures Meaning(Lookup(fields, k)) == Meaning(Lookup(w.fields, k)) {
        assert Meaning(v).members[k] == Meaning(w).members[k];
      }
      SameMembers(fields, w.fields, SortedKeys(fields));
    case _ =>
  }

  lemma {:induction false} SameItems(a: seq<Json>, b: seq<Json>)
    requires |a| == |b| && forall i :: 0 <= i < |a| ==> Meaning(a[i]) == Meaning(b[i])
    ensures Items(a) == Items(b)
    decreases a, 0
  {
    hide Meaning, Canonicalize;
    if a != [] {
      SameMeaningSameText(a[0], b[0]);
      SameItems(a[1..], b[1..]);
    }
  }

  lemma {:induction false} SameMembers(a: seq<Field>, b: seq<Field>, keys: seq<Text>)
    requires forall k :: k in keys ==> k in Keys(a) && k in Keys(b)
    requires forall k :: k in keys ==> Meaning(Lookup(a, k)) == Meaning(Lookup(b, k))
    ensures Members(a, keys) == Members(b, keys)
    decreases a, |keys|
  {
    hide Meaning, Canonicalize, Quote;
    if keys != [] {
      assert keys[0] in keys;
      SameMeaningSameText(a[LastIndex(a, keys[0])].value, Lookup(b, keys[0]));
      SameMembers(a, b, keys[1..]);
    }
  }

  /** Two values have the same canonical text exactly when they are the same JSON value up to the order of keys. */
  lemma CanonicalIsInjective(v: Json, w: Json)
    ensures Canonicalize(v) == Canonicalize(w) <==> Meaning(v) == Meaning(w)
  {
    if Canonicalize(v) == Canonicalize(w) {
      DecodeCanonical(v, []);
      DecodeCanonical(w, []);
    } else if Meaning(v) == Meaning(w) {
      SameMeaningSameText(v, w);
    }
  }

  predicate DistinctKeys(fields: seq<Field>) {
    forall i, j :: 0 <= i < j < |fields| ==> fields[i].key != fields[j].key
  }

  lemma LookupDistinct(fields: seq<Field>, f: Field)
    requires DistinctKeys(fields) && f in fields
    ensures f.key in Keys(fields) && Lookup(fields, f.key) == f.value
  {
  }

  /** The order in which the properties of an object were set does not matter. */
  lemma KeyOrderIsIrrelevant(a: seq<Field>, b: seq<Field>)
    requires DistinctKeys(a) && DistinctKeys(b)
    requires forall f :: f in a <==> f in b
    ensures Canonicalize(Obj(a)) == Canonicalize(Obj(b))
  {
    assert Keys(a) == Keys(b);
    forall k | k in Keys(a) ensures Lookup(a, k) == Lookup(b, k) {
      var f :| f in a && f.key == k;
      LookupDistinct(a, f);
      LookupDistinct(b, f);
    }
    assert Meaning(Obj(a)).members == Meaning(Obj(b)).members;
    CanonicalIsInjective(Obj(a), Obj(b));
  }

  /** Numbers keep their identity except that no non-finite number differs from null, and -0 does not differ from 0. */
  lemma NumberCollisions(n: Number, m: Number)
    ensures Canonicalize(Num(n)) == Canonicalize(Num(m)) <==>
              || n == m
              || (!PrintsNumber(Num(n)) && !PrintsNumber(Num(m)))
              || {n, m} == {NegativeZero, Finite([0x30])}
    ensures Canonicalize(Num(NegativeZero)) == Ascii("0") && Canonicalize(Num(NotANumber)) == Ascii("null")
    ensures Canonicalize(Num(n)) == Canonicalize(Null) <==> n.NotANumber? || n.Infinite?
  {
  }

  /** After a number the rest cannot be told apart from the number itself, so there the rest has to be delimited. */
  lemma NumbersNeedDelimiters()
    ensures var one: NumberText, twelve: NumberText := [0x31], [0x31, 0x32];
            Canonicalize(Num(Finite(one))) + [0x32] == Canonicalize(Num(Finite(twelve))) + [] && one != twelve
  {
  }

  const UNDEFINED: Text := [0x75, 0x6E, 0x64, 0x65, 0x66, 0x69, 0x6E, 0x65, 0x64]

  lemma UndefinedIsNotCanonical(v: Json)
    ensures Canonicalize(v) != UNDEFINED && UNDEFINED == Ascii("undefined")
  {
    FirstUnit(v);
  }

  // ----- the canonical text survives the encoding that precedes the hash

  lemma {:induction false} CanonicalIsUnicode(v: Json)
    ensures IsUnicode(Canonicalize(v))
    decreases v, 0
  {
    match v
    case Num(n) => PlainIsUnicode(NumberCanonical(n));
    case Str(s) => QuotedIsUnicode(s);
    case Arr(items) =>
      ItemsAreUnicode(items);
      Enclosed(OPEN_BRACKET, Items(items), CLOSE_BRACKET);
    case Obj(fields) =>
      MembersAreUnicode(fields, SortedKeys(fields));
      Enclosed(OPEN_BRACE, Members(fields, SortedKeys(fields)), CLOSE_BRACE);
    case _ => PlainIsUnicode(Canonicalize(v));
  }

  lemma Enclosed(open: Unit, t: Text, close: Unit)
    requires open < 0xD800 && close < 0xD800 && IsUnicode(t)
    ensures IsUnicode([open] + t + [close])
  {
    PlainIsUnicode([open]);
    PlainIsUnicode([close]);
    UnicodeConcat([open], t);
    UnicodeConcat([open] + t, [close]);
  }

  lemma {:induction false} ItemsAreUnicode(items: seq<Json>)
    ensures IsUnicode(Items(items))
    decreases items, 0
  {
    hide Canonicalize;
    if items != [] {
      CanonicalIsUnicode(items[0]);
      if |items| > 1 {
        ItemsAreUnicode(items[1..]);
        PlainIsUnicode([COMMA]);
        UnicodeConcat([COMMA], Items(items[1..]));
        UnicodeConcat(Canonicalize(items[0]), [COMMA] + Items(items[1..]));
      } else {
        assert Items(items) == Canonicalize(items[0]);
      }
    }
  }

  lemma {:induction false} MembersAreUnicode(fields: seq<Field>, keys: seq<Text>)
    requires forall k :: k in keys ==> k in Keys(fields)
    ensures IsUnicode(Members(fields, keys))
    decreases fields, |keys|
  {
    hide Canonicalize, Quote;
    if keys != [] {
      assert keys[0] in keys;
      var v := fields[LastIndex(fields, keys[0])].value;
      QuotedIsUnicode(keys[0]);
      CanonicalIsUnicode(v);
      PlainIsUnicode([COLON]);
      UnicodeConcat(Quote(keys[0]), [COLON]);
      UnicodeConcat(Quote(keys[0]) + [COLON], Canonicalize(v));
      var tail := if |keys| == 1 then [] else [COMMA] + Members(fields, keys[1..]);
      if |keys| > 1 {
        MembersAreUnicode(fields, keys[1..]);
        PlainIsUnicode([COMMA]);
        UnicodeConcat([COMMA], Members(fields, keys[1..]));
      }
      UnicodeConcat(Quote(keys[0]) + [COLON] + Canonicalize(v), tail);
    }
  }
}
