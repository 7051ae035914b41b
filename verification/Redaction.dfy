/** Redaction of an object graph, cycles included, before it crosses a logging boundary. */
module Redaction {
  type Id = nat

  /** A scalar is anything that is neither a string nor an object: it passes unchanged. */
  datatype Value = Text(s: string) | Scalar(n: int) | Ref(id: Id)

  datatype Entry = Entry(key: string, value: Value)

  datatype Node = List(items: seq<Value>) | Record(entries: seq<Entry>)

  type Heap = map<Id, Node>

  /** What comes out: a tree in which every expanded object carries the identity of its original. */
  datatype Out = Shown(s: string) | Plain(n: int) | Array(origin: Id, items: seq<Out>) | Object(origin: Id, fields: seq<Field>)

  datatype Field = Field(key: string, value: Out)

  const CYCLE := "[REDACTED:CYCLE]"
  const MARKER := "[REDACTED]"

  datatype Rules = Rules(sensitive: string -> bool, redactText: string -> string)

  // ----- graphs

  /** The values an object hands to the redaction, those under sensitive keys excepted. */
  function Exposed(rules: Rules, node: Node): seq<Value> {
    match node
    case List(items) => items
    case Record(entries) => ExposedEntries(rules, entries)
  }

  function ExposedEntries(rules: Rules, entries: seq<Entry>): seq<Value> {
    if entries == [] then []
    else
      var last := entries[|entries| - 1];
      ExposedEntries(rules, entries[..|entries| - 1]) + if rules.sensitive(last.key) then [] else [last.value]
  }

  predicate InHeap(heap: Heap, v: Value) {
    v.Ref? ==> v.id in heap
  }

  predicate EntriesInHeap(heap: Heap, entries: seq<Entry>) {
    forall e :: e in entries ==> InHeap(heap, e.value)
  }

  predicate ValuesInHeap(heap: Heap, values: seq<Value>) {
    forall v :: v in values ==> InHeap(heap, v)
  }

  /** Every reference leads somewhere. */
  predicate Closed(heap: Heap) {
    forall id :: id in heap ==>
      match heap[id]
      case List(items) => ValuesInHeap(heap, items)
      case Record(entries) => EntriesInHeap(heap, entries)
  }

  // ----- the redaction, threading the objects seen so far

  function Left(heap: Heap, seen: set<Id>): nat {
    |heap.Keys - seen|
  }

  lemma SeenShrinks(heap: Heap, seen: set<Id>, seen': set<Id>)
    requires seen <= seen'
    ensures Left(heap, seen') <= Left(heap, seen)
    ensures (exists id :: id in heap && id in seen' && id !in seen) ==> Left(heap, seen') < Left(heap, seen)
  {
    Cardinality(heap.Keys - seen', heap.Keys - seen);
  }

  lemma {:induction false} Cardinality<T>(a: set<T>, b: set<T>)
    requires a <= b
    ensures |a| <= |b| && (a != b ==> |a| < |b|)
  {
    if a != {} {
      var x :| x in a;
      Cardinality(a - {x}, b - {x});
    }
  }

  function Redact(rules: Rules, heap: Heap, v: Value, seen: set<Id>): (r: (Out, set<Id>))
    requires Closed(heap) && InHeap(heap, v)
    ensures seen <= r.1
    decreases Left(heap, seen), 0
  {
    match v
    case Text(s) => (Shown(rules.redactText(s)), seen)
    case Scalar(n) => (Plain(n), seen)
    case Ref(id) =>
      if id in seen then (Shown(CYCLE), seen)
      else
        SeenShrinks(heap, seen, seen + {id});
        match heap[id]
        case List(items) =>
          var (outs, after) := RedactItems(rules, heap, items, seen + {id});
          (Array(id, outs), after)
        case Record(entries) =>
          var (fields, after) := RedactEntries(rules, heap, entries, seen + {id});
          (Object(id, fields), after)
  }

  function RedactItems(rules: Rules, heap: Heap, items: seq<Value>, seen: set<Id>): (r: (seq<Out>, set<Id>))
    requires Closed(heap) && ValuesInHeap(heap, items)
    ensures seen <= r.1 && |r.0| == |items|
    decreases Left(heap, seen), |items|
  {
    if items == [] then ([], seen)
    else
      var n := |items| - 1;
      var (outs, between) := RedactItems(rules, heap, items[..n], seen);
      SeenShrinks(heap, seen, between);
      var (out, after) := Redact(rules, heap, items[n], between);
      (outs + [out], after)
  }

  function RedactEntries(rules: Rules, heap: Heap, entries: seq<Entry>, seen: set<Id>): (r: (seq<Field>, set<Id>))
    requires Closed(heap) && EntriesInHeap(heap, entries)
    ensures seen <= r.1 && |r.0| == |entries|
    decreases Left(heap, seen), |entries|
  {
    if entries == [] then ([], seen)
    else
      var n := |entries| - 1;
      var (fields, between) := RedactEntries(rules, heap, entries[..n], seen);
      if rules.sensitive(entries[n].key) then (fields + [Field(entries[n].key, Shown(MARKER))], between)
      else
        SeenShrinks(heap, seen, between);
        var (out, after) := Redact(rules, heap, entries[n].value, between);
        (fields + [Field(entries[n].key, out)], after)
  }

  // ----- the program

  class Redactor {
    const rules: Rules
    const heap: Heap
    var seen: set<Id>

    constructor (rules: Rules, heap: Heap)
      ensures this.rules == rules && this.heap == heap && seen == {}
    {
      this.rules, this.heap, seen := rules, heap, {};
    }

    method RedactValue(v: Value) returns (out: Out)
      requires Closed(heap) && InHeap(heap, v)
      modifies this
      ensures (out, seen) == Redact(rules, heap, v, old(seen))
      decreases Left(heap, seen)
    {
      match v
      case Text(s) => return Shown(rules.redactText(s));
      case Scalar(n) => return Plain(n);
      case Ref(id) =>
        if id in seen {
          return Shown(CYCLE);
        }
        ghost var before := seen;
        seen := seen + {id};
        ghost var start := seen;
        SeenShrinks(heap, before, start);
        match heap[id] {
          case List(items) =>
            var outs: seq<Out> := [];
            for i := 0 to |items|
              invariant (outs, seen) == RedactItems(rules, heap, items[..i], start)
            {
              assert items[..i + 1][..i] == items[..i];
              SeenShrinks(heap, start, seen);
              var entry := RedactValue(items[i]);
              outs := outs + [entry];
            }
            assert items[..|items|] == items;
            return Array(id, outs);
          case Record(entries) =>
            var fields: seq<Field> := [];
            for i := 0 to |entries|
              invariant (fields, seen) == RedactEntries(rules, heap, entries[..i], start)
            {
              assert entries[..i + 1][..i] == entries[..i];
              SeenShrinks(heap, start, seen);
              var value;
              if rules.sensitive(entries[i].key) {
                value := Shown(MARKER);
              } else {
                value := RedactValue(entries[i].value);
              }
              fields := fields + [Field(entries[i].key, value)];
            }
            assert entries[..|entries|] == entries;
            return Object(id, fields);
        }
    }
  }

  // ----- every object at most once

  function Origins(out: Out): multiset<Id> {
    match out
    case Array(origin, items) => multiset{origin} + ItemOrigins(items)
    case Object(origin, fields) => multiset{origin} + FieldOrigins(fields)
    case _ => multiset{}
  }

  function ItemOrigins(items: seq<Out>): multiset<Id> {
    if items == [] then multiset{} else ItemOrigins(items[..|items| - 1]) + Origins(items[|items| - 1])
  }

  function FieldOrigins(fields: seq<Field>): multiset<Id> {
    if fields == [] then multiset{} else FieldOrigins(fields[..|fields| - 1]) + Origins(fields[|fields| - 1].value)
  }

  /** The objects of `ids`, each one time. */
  ghost predicate Once(ids: set<Id>, m: multiset<Id>) {
    m == multiset(ids)
  }

  lemma OnceSum(a: set<Id>, b: set<Id>, c: set<Id>, m: multiset<Id>, n: multiset<Id>)
    requires a <= b <= c && Once(b - a, m) && Once(c - b, n)
    ensures Once(c - a, m + n)
  {
    assert c - a == (b - a) + (c - b);
  }

  lemma OnceMore(seen: set<Id>, id: Id, after: set<Id>, m: multiset<Id>)
    requires id !in seen && seen + {id} <= after && Once(after - (seen + {id}), m)
    ensures Once(after - seen, multiset{id} + m)
  {
    assert after - seen == {id} + (after - (seen + {id}));
  }

  /** The expanded objects are exactly those newly seen, and each of them is expanded once. */
  lemma {:induction false} ExpandedOnce(rules: Rules, heap: Heap, v: Value, seen: set<Id>)
    requires Closed(heap) && InHeap(heap, v)
    ensures var (out, after) := Redact(rules, heap, v, seen); Once(after - seen, Origins(out))
    decreases Left(heap, seen), 0
  {
    hide RedactItems, RedactEntries, Once;
    if v.Ref? && v.id !in seen {
      var start := seen + {v.id};
      SeenShrinks(heap, seen, start);
      match heap[v.id]
      case List(items) =>
        ItemsExpandedOnce(rules, heap, items, start);
        var r := RedactItems(rules, heap, items, start);
        OnceMore(seen, v.id, r.1, ItemOrigins(r.0));
      case Record(entries) =>
        EntriesExpandedOnce(rules, heap, entries, start);
        var r := RedactEntries(rules, heap, entries, start);
        OnceMore(seen, v.id, r.1, FieldOrigins(r.0));
    } else {
      NothingOnce(seen);
    }
  }

  lemma NothingOnce(seen: set<Id>)
    ensures Once(seen - seen, multiset{})
  {
    assert seen - seen == {};
  }

  lemma {:induction false} ItemsExpandedOnce(rules: Rules, heap: Heap, items: seq<Value>, seen: set<Id>)
    requires Closed(heap) && ValuesInHeap(heap, items)
    ensures var (outs, after) := RedactItems(rules, heap, items, seen); Once(after - seen, ItemOrigins(outs))
    decreases Left(heap, seen), |items|
  {
    hide Redact, Once;
    if items == [] {
      NothingOnce(seen);
    } else {
      var n := |items| - 1;
      ItemsExpandedOnce(rules, heap, items[..n], seen);
      var r := RedactItems(rules, heap, items[..n], seen);
      SeenShrinks(heap, seen, r.1);
      ExpandedOnce(rules, heap, items[n], r.1);
      var last := Redact(rules, heap, items[n], r.1);
      OnceSum(seen, r.1, last.1, ItemOrigins(r.0), Origins(last.0));
      assert (r.0 + [last.0])[..n] == r.0;
    }
  }

  lemma {:induction false} EntriesExpandedOnce(rules: Rules, heap: Heap, entries: seq<Entry>, seen: set<Id>)
    requires Closed(heap) && EntriesInHeap(heap, entries)
    ensures var (fields, after) := RedactEntries(rules, heap, entries, seen); Once(after - seen, FieldOrigins(fields))
    decreases Left(heap, seen), |entries|
  {
    hide Redact, Once;
    if entries == [] {
      NothingOnce(seen);
    } else {
      var n := |entries| - 1;
      EntriesExpandedOnce(rules, heap, entries[..n], seen);
      var r := RedactEntries(rules, heap, entries[..n], seen);
      if rules.sensitive(entries[n].key) {
        NothingOnce(r.1);
        OnceSum(seen, r.1, r.1, FieldOrigins(r.0), multiset{});
        assert (r.0 + [Field(entries[n].key, Shown(MARKER))])[..n] == r.0;
      } else {
        SeenShrinks(heap, seen, r.1);
        ExpandedOnce(rules, heap, entries[n].value, r.1);
        var last := Redact(rules, heap, entries[n].value, r.1);
        OnceSum(seen, r.1, last.1, FieldOrigins(r.0), Origins(last.0));
        assert (r.0 + [Field(entries[n].key, last.0)])[..n] == r.0;
      }
    }
  }

  // ----- expanded where it is met first

  datatype Visit = Visit(id: Id, expanded: bool)

  /** The places of objects in the output, in the order in which they are reached, with what stands there. */
  function Visits(rules: Rules, heap: Heap, v: Value, out: Out): seq<Visit>
    decreases out
  {
    if !v.Ref? then []
    else
      match out
      case Array(_, items) =>
        [Visit(v.id, true)] + (if v.id in heap && heap[v.id].List? then ItemVisits(rules, heap, heap[v.id].items, items) else [])
      case Object(_, fields) =>
        [Visit(v.id, true)] + (if v.id in heap && heap[v.id].Record? then FieldVisits(rules, heap, heap[v.id].entries, fields) else [])
      case _ => [Visit(v.id, false)]
  }

  function ItemVisits(rules: Rules, heap: Heap, items: seq<Value>, outs: seq<Out>): seq<Visit>
    decreases outs
  {
    if items == [] || |items| != |outs| then []
    else
      var n := |items| - 1;
      ItemVisits(rules, heap, items[..n], outs[..n]) + Visits(rules, heap, items[n], outs[n])
  }

  function FieldVisits(rules: Rules, heap: Heap, entries: seq<Entry>, fields: seq<Field>): seq<Visit>
    decreases fields
  {
    if entries == [] || |entries| != |fields| then []
    else
      var n := |entries| - 1;
      FieldVisits(rules, heap, entries[..n], fields[..n])
      + if rules.sensitive(entries[n].key) then [] else Visits(rules, heap, entries[n].value, fields[n].value)
  }

  function Ids(visits: seq<Visit>): set<Id> {
    set visit | visit in visits :: visit.id
  }

  /** An object is expanded exactly at its first place, and nowhere when it was seen before; all of them are seen afterwards. */
  ghost predicate FirstPlaces(seen: set<Id>, visits: seq<Visit>, after: set<Id>) {
    && (forall k :: 0 <= k < |visits| ==> (visits[k].expanded <==> visits[k].id !in seen + Ids(visits[..k])))
    && after == seen + Ids(visits)
  }

  lemma IdsSum(first: seq<Visit>, second: seq<Visit>)
    ensures Ids(first + second) == Ids(first) + Ids(second)
  {
  }

  lemma FirstPlacesSum(a: set<Id>, first: seq<Visit>, b: set<Id>, second: seq<Visit>, c: set<Id>)
    requires FirstPlaces(a, first, b) && FirstPlaces(b, second, c)
    ensures FirstPlaces(a, first + second, c)
  {
    hide Ids;
    var all := first + second;
    forall k | 0 <= k < |all| ensures all[k].expanded <==> all[k].id !in a + Ids(all[..k]) {
      if k < |first| {
        assert all[k] == first[k] && all[..k] == first[..k];
      } else {
        var i := k - |first|;
        assert all[k] == second[i] && all[..k] == first + second[..i];
        IdsSum(first, second[..i]);
      }
    }
    IdsSum(first, second);
  }

  lemma NoPlaces(seen: set<Id>)
    ensures FirstPlaces(seen, [], seen)
  {
  }

  lemma FirstPlace(seen: set<Id>, id: Id, expanded: bool)
    requires expanded <==> id !in seen
    ensures FirstPlaces(seen, [Visit(id, expanded)], seen + {id})
  {
    assert [Visit(id, expanded)][..0] == [];
    assert Ids([Visit(id, expanded)]) == {id};
  }

  /** The redaction expands every object at the first of its places, in the order of a traversal that enters what it expands. */
  lemma {:induction false} ExpandedFirst(rules: Rules, heap: Heap, v: Value, seen: set<Id>)
    requires Closed(heap) && InHeap(heap, v)
    ensures var (out, after) := Redact(rules, heap, v, seen); FirstPlaces(seen, Visits(rules, heap, v, out), after)
    decreases Left(heap, seen), 0
  {
    hide RedactItems, RedactEntries, FirstPlaces, ItemVisits, FieldVisits;
    if v.Ref? {
      if v.id in seen {
        FirstPlace(seen, v.id, false);
        assert seen + {v.id} == seen;
      } else {
        FirstPlace(seen, v.id, true);
        var start := seen + {v.id};
        SeenShrinks(heap, seen, start);
        match heap[v.id]
        case List(items) =>
          ItemsExpandedFirst(rules, heap, items, start);
          var r := RedactItems(rules, heap, items, start);
          FirstPlacesSum(seen, [Visit(v.id, true)], start, ItemVisits(rules, heap, items, r.0), r.1);
        case Record(entries) =>
          EntriesExpandedFirst(rules, heap, entries, start);
          var r := RedactEntries(rules, heap, entries, start);
          FirstPlacesSum(seen, [Visit(v.id, true)], start, FieldVisits(rules, heap, entries, r.0), r.1);
      }
    } else {
      NoPlaces(seen);
    }
  }

  lemma {:induction false} ItemsExpandedFirst(rules: Rules, heap: Heap, items: seq<Value>, seen: set<Id>)
    requires Closed(heap) && ValuesInHeap(heap, items)
    ensures var (outs, after) := RedactItems(rules, heap, items, seen); FirstPlaces(seen, ItemVisits(rules, heap, items, outs), after)
    decreases Left(heap, seen), |items|
  {
    hide Redact, FirstPlaces, Visits;
    if items == [] {
      NoPlaces(seen);
    } else {
      var n := |items| - 1;
      ItemsExpandedFirst(rules, heap, items[..n], seen);
      var r := RedactItems(rules, heap, items[..n], seen);
      SeenShrinks(heap, seen, r.1);
      ExpandedFirst(rules, heap, items[n], r.1);
      var last := Redact(rules, heap, items[n], r.1);
      FirstPlacesSum(seen, ItemVisits(rules, heap, items[..n], r.0), r.1, Visits(rules, heap, items[n], last.0), last.1);
      assert (r.0 + [last.0])[..n] == r.0;
    }
  }

  lemma {:induction false} EntriesExpandedFirst(rules: Rules, heap: Heap, entries: seq<Entry>, seen: set<Id>)
    requires Closed(heap) && EntriesInHeap(heap, entries)
    ensures var (fields, after) := RedactEntries(rules, heap, entries, seen);
            FirstPlaces(seen, FieldVisits(rules, heap, entries, fields), after)
    decreases Left(heap, seen), |entries|
  {
    hide Redact, FirstPlaces, Visits;
    if entries == [] {
      NoPlaces(seen);
    } else {
      var n := |entries| - 1;
      EntriesExpandedFirst(rules, heap, entries[..n], seen);
      var r := RedactEntries(rules, heap, entries[..n], seen);
      var before := FieldVisits(rules, heap, entries[..n], r.0);
      if rules.sensitive(entries[n].key) {
        NoPlaces(r.1);
        FirstPlacesSum(seen, before, r.1, [], r.1);
        assert (r.0 + [Field(entries[n].key, Shown(MARKER))])[..n] == r.0;
      } else {
        SeenShrinks(heap, seen, r.1);
        ExpandedFirst(rules, heap, entries[n].value, r.1);
        var last := Redact(rules, heap, entries[n].value, r.1);
        FirstPlacesSum(seen, before, r.1, Visits(rules, heap, entries[n].value, last.0), last.1);
        assert (r.0 + [Field(entries[n].key, last.0)])[..n] == r.0;
      }
    }
  }

  // ----- what stands at every place

  /**
   The output mirrors the graph: the fixed marker under every sensitive key, the redacted text at every other string, and
   every other object either expanded or replaced by the cycle marker.
   */
  predicate Mirrors(rules: Rules, heap: Heap, v: Value, out: Out)
    decreases out
  {
    match v
    case Text(s) => out == Shown(rules.redactText(s))
    case Scalar(n) => out == Plain(n)
    case Ref(id) =>
      || out == Shown("[REDACTED:CYCLE]")
      || (id in heap &&
          match heap[id]
          case List(items) =>
            && out.Array? && out.origin == id && |out.items| == |items|
            && forall i :: 0 <= i < |items| ==> Mirrors(rules, heap, items[i], out.items[i])
          case Record(entries) =>
            && out.Object? && out.origin == id && |out.fields| == |entries|
            && forall i :: 0 <= i < |entries| ==> FieldMirrors(rules, heap, entries[i], out.fields[i]))
  }

  predicate FieldMirrors(rules: Rules, heap: Heap, e: Entry, f: Field)
    decreases f
  {
    && f.key == e.key
    && if rules.sensitive(e.key) then f.value == Shown("[REDACTED]") else Mirrors(rules, heap, e.value, f.value)
  }

  lemma {:induction false} RedactMirrors(rules: Rules, heap: Heap, v: Value, seen: set<Id>)
    requires Closed(heap) && InHeap(heap, v)
    ensures Mirrors(rules, heap, v, Redact(rules, heap, v, seen).0)
    decreases Left(heap, seen), 0
  {
    hide RedactItems, RedactEntries;
    if v.Ref? && v.id !in seen {
      var start := seen + {v.id};
      SeenShrinks(heap, seen, start);
      match heap[v.id]
      case List(items) => ItemsMirror(rules, heap, items, start);
      case Record(entries) => EntriesMirror(rules, heap, entries, start);
    }
  }

  lemma {:induction false} ItemsMirror(rules: Rules, heap: Heap, items: seq<Value>, seen: set<Id>)
    requires Closed(heap) && ValuesInHeap(heap, items)
    ensures var outs := RedactItems(rules, heap, items, seen).0;
            forall i :: 0 <= i < |items| ==> Mirrors(rules, heap, items[i], outs[i])
    decreases Left(heap, seen), |items|, 1
  {
    hide Redact, RedactItems, Mirrors;
    if items != [] {
      var n := |items| - 1;
      ItemsMirror(rules, heap, items[..n], seen);
      var out := LastItem(rules, heap, items, seen);
      var before := RedactItems(rules, heap, items[..n], seen).0;
      forall i | 0 <= i < n ensures Mirrors(rules, heap, items[i], (before + [out])[i]) {
        assert items[..n][i] == items[i];
      }
    }
  }

  lemma {:induction false} LastItem(rules: Rules, heap: Heap, items: seq<Value>, seen: set<Id>) returns (out: Out)
    requires Closed(heap) && ValuesInHeap(heap, items) && items != []
    ensures var n := |items| - 1;
            && RedactItems(rules, heap, items, seen).0 == RedactItems(rules, heap, items[..n], seen).0 + [out]
            && Mirrors(rules, heap, items[n], out)
    decreases Left(heap, seen), |items|, 0
  {
    hide Redact, Mirrors;
    var n := |items| - 1;
    var between := RedactItems(rules, heap, items[..n], seen).1;
    SeenShrinks(heap, seen, between);
    out := Redact(rules, heap, items[n], between).0;
    RedactMirrors(rules, heap, items[n], between);
  }

  lemma {:induction false} EntriesMirror(rules: Rules, heap: Heap, entries: seq<Entry>, seen: set<Id>)
    requires Closed(heap) && EntriesInHeap(heap, entries)
    ensures var fields := RedactEntries(rules, heap, entries, seen).0;
            forall i :: 0 <= i < |entries| ==> FieldMirrors(rules, heap, entries[i], fields[i])
    decreases Left(heap, seen), |entries|, 1
  {
    hide Redact, RedactEntries, Mirrors, FieldMirrors;
    if entries != [] {
      var n := |entries| - 1;
      EntriesMirror(rules, heap, entries[..n], seen);
      var f := LastField(rules, heap, entries, seen);
      var before := RedactEntries(rules, heap, entries[..n], seen).0;
      forall i | 0 <= i < n ensures FieldMirrors(rules, heap, entries[i], (before + [f])[i]) {
        assert entries[..n][i] == entries[i];
      }
    }
  }

  lemma {:induction false} LastField(rules: Rules, heap: Heap, entries: seq<Entry>, seen: set<Id>) returns (f: Field)
    requires Closed(heap) && EntriesInHeap(heap, entries) && entries != []
    ensures var n := |entries| - 1;
            && RedactEntries(rules, heap, entries, seen).0 == RedactEntries(rules, heap, entries[..n], seen).0 + [f]
            && FieldMirrors(rules, heap, entries[n], f)
    decreases Left(heap, seen), |entries|, 0
  {
    hide Redact, Mirrors, FieldMirrors;
    var n := |entries| - 1;
    var between := RedactEntries(rules, heap, entries[..n], seen).1;
    if rules.sensitive(entries[n].key) {
      f := Field(entries[n].key, Shown(MARKER));
      MarkedMirrors(rules, heap, entries[n], f);
    } else {
      SeenShrinks(heap, seen, between);
      f := Field(entries[n].key, Redact(rules, heap, entries[n].value, between).0);
      RedactMirrors(rules, heap, entries[n].value, between);
      ExposedMirrors(rules, heap, entries[n], f);
    }
  }

  lemma MarkedMirrors(rules: Rules, heap: Heap, e: Entry, f: Field)
    requires rules.sensitive(e.key) && f == Field(e.key, Shown(MARKER))
    ensures FieldMirrors(rules, heap, e, f)
  {
  }

  lemma ExposedMirrors(rules: Rules, heap: Heap, e: Entry, f: Field)
    requires !rules.sensitive(e.key) && f.key == e.key && Mirrors(rules, heap, e.value, f.value)
    ensures FieldMirrors(rules, heap, e, f)
  {
  }

  // ----- nothing exposed is lost, nothing else is expanded

  /** Holds the objects that the values refer to. */
  predicate Covers(ids: set<Id>, values: seq<Value>) {
    forall v :: v in values && v.Ref? ==> v.id in ids
  }

  /** Every object of `ids` outside `seen` exposes only objects of `ids`. */
  predicate Saturated(rules: Rules, heap: Heap, seen: set<Id>, ids: set<Id>) {
    forall id :: id in ids && id !in seen ==> id in heap && Covers(ids, Exposed(rules, heap[id]))
  }

  lemma SaturatedSum(rules: Rules, heap: Heap, a: set<Id>, b: set<Id>, c: set<Id>)
    requires b <= c && Saturated(rules, heap, a, b) && Saturated(rules, heap, b, c)
    ensures Saturated(rules, heap, a, c)
  {
    hide Exposed;
  }

  /** What has been seen afterwards is the least set that covers the value and exposes nothing outside itself. */
  lemma {:induction false} RedactSaturates(rules: Rules, heap: Heap, v: Value, seen: set<Id>, bound: set<Id>)
    requires Closed(heap) && InHeap(heap, v)
    ensures var after := Redact(rules, heap, v, seen).1;
            && Covers(after, [v]) && Saturated(rules, heap, seen, after)
            && (Covers(bound, [v]) && Saturated(rules, heap, {}, bound) ==> after <= seen + bound)
    decreases Left(heap, seen), 0
  {
    hide RedactItems, RedactEntries, Exposed;
    if v.Ref? && v.id !in seen {
      var start, node := seen + {v.id}, heap[v.id];
      SeenShrinks(heap, seen, start);
      assert v in [v];
      assert Covers(bound, [v]) && Saturated(rules, heap, {}, bound) ==> v.id in bound && Covers(bound, Exposed(rules, node));
      ExposedByNode(rules, node);
      match node
      case List(items) => ItemsSaturate(rules, heap, items, start, bound);
      case Record(entries) => EntriesSaturate(rules, heap, entries, start, bound);
    }
  }

  lemma ExposedByNode(rules: Rules, node: Node)
    ensures node.List? ==> Exposed(rules, node) == node.items
    ensures node.Record? ==> Exposed(rules, node) == ExposedEntries(rules, node.entries)
  {
  }

  lemma {:induction false} ItemsSaturate(rules: Rules, heap: Heap, items: seq<Value>, seen: set<Id>, bound: set<Id>)
    requires Closed(heap) && ValuesInHeap(heap, items)
    ensures var after := RedactItems(rules, heap, items, seen).1;
            && Covers(after, items) && Saturated(rules, heap, seen, after)
            && (Covers(bound, items) && Saturated(rules, heap, {}, bound) ==> after <= seen + bound)
    decreases Left(heap, seen), |items|
  {
    hide Redact, Saturated;
    if items == [] {
      NothingSaturated(rules, heap, seen);
    } else {
      var n := |items| - 1;
      assert items == items[..n] + [items[n]];
      ItemsSaturate(rules, heap, items[..n], seen, bound);
      var between := RedactItems(rules, heap, items[..n], seen).1;
      SeenShrinks(heap, seen, between);
      RedactSaturates(rules, heap, items[n], between, bound);
      SaturatedSum(rules, heap, seen, between, Redact(rules, heap, items[n], between).1);
    }
  }

  lemma NothingSaturated(rules: Rules, heap: Heap, seen: set<Id>)
    ensures Saturated(rules, heap, seen, seen)
  {
  }

  lemma {:induction false} EntriesSaturate(rules: Rules, heap: Heap, entries: seq<Entry>, seen: set<Id>, bound: set<Id>)
    requires Closed(heap) && EntriesInHeap(heap, entries)
    ensures var after := RedactEntries(rules, heap, entries, seen).1;
            && Covers(after, ExposedEntries(rules, entries)) && Saturated(rules, heap, seen, after)
            && (Covers(bound, ExposedEntries(rules, entries)) && Saturated(rules, heap, {}, bound) ==> after <= seen + bound)
    decreases Left(heap, seen), |entries|
  {
    hide Redact, Saturated;
    if entries == [] {
      NothingSaturated(rules, heap, seen);
    } else {
      var n := |entries| - 1;
      EntriesSaturate(rules, heap, entries[..n], seen, bound);
      var between := RedactEntries(rules, heap, entries[..n], seen).1;
      if !rules.sensitive(entries[n].key) {
        SeenShrinks(heap, seen, between);
        RedactSaturates(rules, heap, entries[n].value, between, bound);
        SaturatedSum(rules, heap, seen, between, Redact(rules, heap, entries[n].value, between).1);
      }
    }
  }

  /**
   A whole redaction expands exactly the objects that can be reached from the value without passing a sensitive key, the
   least set that covers it and is closed, and expands each of them once.
   */
  lemma RedactionIsExact(rules: Rules, heap: Heap, v: Value, bound: set<Id>)
    requires Closed(heap) && InHeap(heap, v)
    ensures var (out, reached) := Redact(rules, heap, v, {});
            && Once(reached, Origins(out)) && FirstPlaces({}, Visits(rules, heap, v, out), reached) && Mirrors(rules, heap, v, out)
            && Covers(reached, [v]) && Saturated(rules, heap, {}, reached)
            && (Covers(bound, [v]) && Saturated(rules, heap, {}, bound) ==> reached <= bound)
  {
    hide Redact, Once, FirstPlaces, Visits, Mirrors, Saturated, Covers;
    var r := Redact(rules, heap, v, {});
    ExpandedOnce(rules, heap, v, {});
    ExpandedFirst(rules, heap, v, {});
    RedactMirrors(rules, heap, v, {});
    RedactSaturates(rules, heap, v, {}, bound);
    assert r.1 - {} == r.1 && {} + bound == bound;
  }

  // ----- no string escapes

  ghost predicate Clean(clean: string -> bool, out: Out) {
    match out
    case Shown(s) => clean(s)
    case Plain(_) => true
    case Array(_, items) => forall i :: 0 <= i < |items| ==> Clean(clean, items[i])
    case Object(_, fields) => forall i :: 0 <= i < |fields| ==> Clean(clean, fields[i].value)
  }

  /** If the text rules only yield harmless strings, every string value in the output is harmless. */
  lemma {:induction false} OutputIsClean(rules: Rules, heap: Heap, v: Value, out: Out, clean: string -> bool)
    requires Mirrors(rules, heap, v, out)
    requires clean(CYCLE) && clean(MARKER) && forall s :: clean(rules.redactText(s))
    ensures Clean(clean, out)
    decreases out
  {
    if out.Array? {
      forall i | 0 <= i < |out.items| ensures Clean(clean, out.items[i]) {
        OutputIsClean(rules, heap, heap[v.id].items[i], out.items[i], clean);
      }
    } else if out.Object? {
      forall i | 0 <= i < |out.fields| ensures Clean(clean, out.fields[i].value) {
        var e := heap[v.id].entries[i];
        assert FieldMirrors(rules, heap, e, out.fields[i]);
        if !rules.sensitive(e.key) {
          OutputIsClean(rules, heap, e.value, out.fields[i].value, clean);
        }
      }
    }
  }
}
