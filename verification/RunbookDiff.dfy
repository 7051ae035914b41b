/** The field-by-field comparison of two runbook contents. */
module RunbookDiff {
  import opened Options
  import opened CodeUnits
  import opened CanonicalJson

  /** What reading a property of an object yields, the properties every object inherits included. */
  datatype Member = Undefined | Function | Present(value: Json)

  const PROTO: Text := Ascii("__proto__")

  /** The other names on the prototype of every object; each of them is a function. */
  const INHERITED_FUNCTIONS: set<Text> := {
    Ascii("constructor"), Ascii("hasOwnProperty"), Ascii("isPrototypeOf"), Ascii("propertyIsEnumerable"),
    Ascii("toLocaleString"), Ascii("toString"), Ascii("valueOf"), Ascii("__defineGetter__"),
    Ascii("__defineSetter__"), Ascii("__lookupGetter__"), Ascii("__lookupSetter__")}

  /** The prototype itself is an object without enumerable properties. */
  function Read(fields: seq<Field>, name: Text): Member {
    if name in Keys(fields) then Present(Lookup(fields, name))
    else if name == PROTO then Present(Obj([]))
    else if name in INHERITED_FUNCTIONS then Function
    else Undefined
  }

  /** The text that is compared, or nothing when a value is no JSON at all and the comparison throws. */
  function CanonicalOrNull(m: Member): Option<Text> {
    match m
    case Undefined => Some(UNDEFINED)
    case Function => None
    case Present(v) => Some(Canonicalize(v))
  }

  datatype Row = Row(field: Text, left: Member, right: Member)

  datatype Result = Rows(rows: seq<Row>) | TypeError | Unsupported

  function DiffFields(left: seq<Field>, right: seq<Field>, names: seq<Text>): Result {
    if names == [] then Rows([])
    else
      var l, r := Read(left, names[0]), Read(right, names[0]);
      var lt, rt := CanonicalOrNull(l), CanonicalOrNull(r);
      if lt.None? || rt.None? then Unsupported
      else
        var rest := DiffFields(left, right, names[1..]);
        if !rest.Rows? || lt == rt then rest else Rows([Row(names[0], l, r)] + rest.rows)
  }

  /** A side that is null or undefined has no properties to list, and throws when one is read. */
  function Diff(left: Option<seq<Field>>, right: Option<seq<Field>>): Result {
    var names := SortedKeys(left.Or([]) + right.Or([]));
    if names == [] then Rows([])
    else if left.None? || right.None? then TypeError
    else DiffFields(left.value, right.value, names)
  }

  // ----- what is reported

  predicate Owned(fields: seq<Field>, name: Text) {
    name in Keys(fields)
  }

  /** Only one of the two objects has the property itself. */
  predicate OneSided(left: seq<Field>, right: seq<Field>, name: Text) {
    Owned(left, name) != Owned(right, name)
  }

  /**
   The values differ as JSON, or only one side has the property; the one such property that goes unnoticed is an empty
   object under the name of the prototype.
   */
  predicate Changed(left: seq<Field>, right: seq<Field>, name: Text) {
    if Owned(left, name) && Owned(right, name) then Meaning(Lookup(left, name)) != Meaning(Lookup(right, name))
    else if Owned(left, name) then name == PROTO ==> Meaning(Lookup(left, name)) != DObject(map[])
    else if Owned(right, name) then name == PROTO ==> Meaning(Lookup(right, name)) != DObject(map[])
    else false
  }

  /** The property that is missing on one side is read there as an inherited function. */
  predicate Breaks(left: seq<Field>, right: seq<Field>, name: Text) {
    OneSided(left, right, name) && name != PROTO && name in INHERITED_FUNCTIONS
  }

  lemma EmptyObjectMeaning()
    ensures Meaning(Obj([])) == DObject(map[])
  {
    assert Keys([]) == {};
  }

  lemma TextsDiffer(left: seq<Field>, right: seq<Field>, name: Text)
    requires (Owned(left, name) || Owned(right, name)) && !Breaks(left, right, name)
    ensures var l, r := CanonicalOrNull(Read(left, name)), CanonicalOrNull(Read(right, name));
            l.Some? && r.Some? && (l != r <==> Changed(left, right, name))
  {
    hide Canonicalize, Meaning, Lookup;
    EmptyObjectMeaning();
    var l, r := Read(left, name), Read(right, name);
    if l.Present? && r.Present? {
      CanonicalIsInjective(l.value, r.value);
    } else if l.Present? {
      UndefinedIsNotCanonical(l.value);
    } else {
      UndefinedIsNotCanonical(r.value);
    }
  }

  lemma BreaksAreUnsupported(left: seq<Field>, right: seq<Field>, name: Text)
    requires (Owned(left, name) || Owned(right, name)) && Breaks(left, right, name)
    ensures CanonicalOrNull(Read(left, name)).None? || CanonicalOrNull(Read(right, name)).None?
  {
  }

  /** The names of the reported rows. */
  function Names(rows: seq<Row>): seq<Text> {
    seq(|rows|, i requires 0 <= i < |rows| => rows[i].field)
  }

  /** The rows are those of the changed names, in the order of the names. */
  ghost predicate Reports(left: seq<Field>, right: seq<Field>, names: seq<Text>, rows: seq<Row>) {
    && StrictlySorted(Names(rows))
    && (forall n :: n in Names(rows) <==> n in names && Changed(left, right, n))
    && (forall row :: row in rows ==> row == Row(row.field, Read(left, row.field), Read(right, row.field)))
  }

  lemma NothingReported(left: seq<Field>, right: seq<Field>)
    ensures Reports(left, right, [], [])
  {
    assert Names([]) == [];
  }

  lemma ReportsNext(left: seq<Field>, right: seq<Field>, names: seq<Text>, rows: seq<Row>)
    requires names != [] && StrictlySorted(names) && Reports(left, right, names[1..], rows)
    ensures !Changed(left, right, names[0]) ==> Reports(left, right, names, rows)
    ensures Changed(left, right, names[0]) ==>
      Reports(left, right, names, [Row(names[0], Read(left, names[0]), Read(right, names[0]))] + rows)
  {
    hide Changed, Read;
    var name := names[0];
    assert names == [name] + names[1..];
    if Changed(left, right, name) {
      var more := [Row(name, Read(left, name), Read(right, name))] + rows;
      assert Names(more) == [name] + Names(rows);
      forall n | n in Names(rows) ensures Less(name, n) {
        assert n in names[1..];
        var i :| 0 <= i < |names[1..]| && names[1..][i] == n;
        assert names[i + 1] == n;
      }
    }
  }

  lemma {:induction false} DiffFieldsIsExact(left: seq<Field>, right: seq<Field>, names: seq<Text>)
    requires StrictlySorted(names) && forall n :: n in names ==> Owned(left, n) || Owned(right, n)
    ensures (exists n :: n in names && Breaks(left, right, n)) <==> DiffFields(left, right, names) == Unsupported
    ensures (forall n :: n in names ==> !Breaks(left, right, n)) ==>
              DiffFields(left, right, names).Rows? && Reports(left, right, names, DiffFields(left, right, names).rows)
  {
    hide Changed, Breaks, CanonicalOrNull, Owned, Read;
    if names == [] {
      NothingReported(left, right);
    } else {
      var name, rest := names[0], names[1..];
      assert names == [name] + rest;
      DiffFieldsIsExact(left, right, rest);
      if Breaks(left, right, name) {
        BreaksAreUnsupported(left, right, name);
      } else {
        TextsDiffer(left, right, name);
        if DiffFields(left, right, rest).Rows? {
          ReportsNext(left, right, names, DiffFields(left, right, rest).rows);
        }
      }
    }
  }

  /**
   The difference is exact: it throws exactly when a side without properties has to be read or a one-sided name is that
   of an inherited function, and otherwise reports exactly the changed names, sorted, with what each side has.
   */
  lemma DiffIsExact(left: Option<seq<Field>>, right: Option<seq<Field>>)
    ensures var a, b := left.Or([]), right.Or([]);
            var names := SortedKeys(a + b);
            && (forall n :: n in names <==> Owned(a, n) || Owned(b, n))
            && (Diff(left, right) == TypeError <==> names != [] && (left.None? || right.None?))
            && (Diff(left, right) == Unsupported <==>
                  left.Some? && right.Some? && exists n :: n in names && Breaks(a, b, n))
            && (Diff(left, right).Rows? ==> Reports(a, b, names, Diff(left, right).rows))
  {
    hide Changed, Breaks, DiffFields, Reports;
    var a, b := left.Or([]), right.Or([]);
    var names := SortedKeys(a + b);
    forall n ensures n in names <==> Owned(a, n) || Owned(b, n) {}
    DiffFieldsIsExact(a, b, names);
    NothingReported(a, b);
  }

  /** The name of the prototype is none of the functions: it differs from each in its length or in its third unit. */
  lemma ProtoIsNoFunction()
    ensures PROTO !in INHERITED_FUNCTIONS
  {
    assert |PROTO| == 9 && |Ascii("constructor")| == 11 && |Ascii("hasOwnProperty")| == 14 && |Ascii("isPrototypeOf")| == 13;
    assert |Ascii("propertyIsEnumerable")| == 20 && |Ascii("toLocaleString")| == 14 && |Ascii("toString")| == 8;
    assert |Ascii("valueOf")| == 7 && |Ascii("__defineGetter__")| == 16 && |Ascii("__defineSetter__")| == 16;
    assert |Ascii("__lookupGetter__")| == 16 && |Ascii("__lookupSetter__")| == 16;
  }

  lemma SortedSingle(f: Field)
    ensures SortedKeys([f] + []) == [f.key]
  {
  }

  /** A one-sided property named like an inherited function makes the comparison throw; an empty prototype goes unseen. */
  lemma InheritedNames(name: Text)
    ensures Diff(Some([Field(name, Null)]), Some([])) == Unsupported <==>
              name in [Ascii("constructor"), Ascii("hasOwnProperty"), Ascii("isPrototypeOf"), Ascii("propertyIsEnumerable"),
                       Ascii("toLocaleString"), Ascii("toString"), Ascii("valueOf"), Ascii("__defineGetter__"),
                       Ascii("__defineSetter__"), Ascii("__lookupGetter__"), Ascii("__lookupSetter__")]
    ensures Diff(Some([Field(Ascii("__proto__"), Obj([]))]), Some([])) == Rows([])
  {
    var f, g := Field(name, Null), Field(PROTO, Obj([]));
    SortedSingle(f);
    SortedSingle(g);
    assert PROTO !in INHERITED_FUNCTIONS by { ProtoIsNoFunction(); }
    assert Read([], name).Function? ==> Breaks([f], [], name);
    assert DiffFields([f], [], [name][1..]) == Rows([]);
    LookupDistinct([g], g);
    assert Read([g], PROTO) == Present(Obj([])) == Read([], PROTO);
    assert DiffFields([g], [], [PROTO]) == DiffFields([g], [], []);
  }
}
