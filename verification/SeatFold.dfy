/** The fold of seat events into one listing per advertised seat. */
module SeatFold {
  import opened Options
  import opened Numerals

  datatype Advertised = Advertised(
    clusterId: nat, seatId: nat, advertiser: string, kind: nat, seatCount: nat, minBond: nat, capabilityMask: nat, termsHash: string)

  datatype Applied = Applied(clusterId: nat, seatId: nat, operatorId: string, owner: string, bond: nat)

  datatype Filled = Filled(clusterId: nat, seatId: nat, operatorId: string, filledCount: nat, seatCount: nat)

  datatype Closed = Closed(clusterId: nat, seatId: nat, status: nat)

  datatype Status = NoStatus | Open | Full | Shut

  datatype Seat = Seat(terms: Advertised, seatCount: nat, filledCount: nat, status: Status)

  datatype Batch = Batch(advertised: seq<Advertised>, applied: seq<Applied>, filled: seq<Filled>, closed: seq<Closed>)

  // ----- keys

  function SeatKey(clusterId: nat, seatId: nat): string {
    Numeral(clusterId) + ":" + Numeral(seatId)
  }

  lemma ColonSplits(a: string, b: string, c: string, d: string)
    requires AllDigits(a) && AllDigits(c) && a + ":" + b == c + ":" + d
    ensures a == c && b == d
  {
    var s, t := a + ":" + b, c + ":" + d;
    assert s[|a|] == ':' && t[|c|] == ':';
    assert forall i :: 0 <= i < |a| ==> s[i] == a[i];
    assert forall i :: 0 <= i < |c| ==> t[i] == c[i];
    assert |a| == |c|;
    assert a == s[..|a|] == t[..|c|] == c;
    assert b == s[|a| + 1..] == t[|c| + 1..] == d;
  }

  /** Two seats never share a key. */
  lemma SeatKeyIsInjective(c: nat, s: nat, d: nat, t: nat)
    requires SeatKey(c, s) == SeatKey(d, t)
    ensures c == d && s == t
  {
    ColonSplits(Numeral(c), Numeral(s), Numeral(d), Numeral(t));
    NumberOfNumeral(c);
    NumberOfNumeral(d);
    NumberOfNumeral(s);
    NumberOfNumeral(t);
  }

  function KeyOf(seat: Seat): string {
    SeatKey(seat.terms.clusterId, seat.terms.seatId)
  }

  // ----- the fold of one key

  /** A fresh listing: open and with no seat filled. */
  function OpenSeatFromAdvertised(e: Advertised): Seat {
    Seat(e, e.seatCount, 0, Open)
  }

  function Max(a: nat, b: nat): nat {
    if a >= b then a else b
  }

  function ApplyFilled(seat: Seat, e: Filled): Seat {
    var filledCount, seatCount := Max(seat.filledCount, e.filledCount), Max(seat.seatCount, e.seatCount);
    Seat(seat.terms, seatCount, filledCount, if seat.status == Shut then Shut else if filledCount >= seatCount then Full else seat.status)
  }

  function ApplyClosed(decode: nat -> Status, seat: Seat, e: Closed): Seat {
    seat.(status := if decode(e.status) == NoStatus then Shut else decode(e.status))
  }

  function FilledFrom(seat: Seat, events: seq<Filled>, key: string): Seat {
    if events == [] then seat
    else
      var e, before := events[|events| - 1], FilledFrom(seat, events[..|events| - 1], key);
      if SeatKey(e.clusterId, e.seatId) == key then ApplyFilled(before, e) else before
  }

  function ClosedFrom(decode: nat -> Status, seat: Seat, events: seq<Closed>, key: string): Seat {
    if events == [] then seat
    else
      var e, before := events[|events| - 1], ClosedFrom(decode, seat, events[..|events| - 1], key);
      if SeatKey(e.clusterId, e.seatId) == key then ApplyClosed(decode, before, e) else before
  }

  // ----- what a listing says, declaratively

  predicate About(e: Filled, key: string) {
    SeatKey(e.clusterId, e.seatId) == key
  }

  function MostFilled(events: seq<Filled>, key: string): nat {
    if events == [] then 0
    else
      var e, before := events[|events| - 1], MostFilled(events[..|events| - 1], key);
      if About(e, key) then Max(before, e.filledCount) else before
  }

  function MostOffered(base: nat, events: seq<Filled>, key: string): nat {
    if events == [] then base
    else
      var e, before := events[|events| - 1], MostOffered(base, events[..|events| - 1], key);
      if About(e, key) then Max(before, e.seatCount) else before
  }

  lemma {:induction false} MostFilledIsMaximum(events: seq<Filled>, key: string)
    ensures forall e :: e in events && About(e, key) ==> e.filledCount <= MostFilled(events, key)
    ensures MostFilled(events, key) == 0 || exists e :: e in events && About(e, key) && e.filledCount == MostFilled(events, key)
  {
    if events != [] {
      var n := |events| - 1;
      MostFilledIsMaximum(events[..n], key);
      assert events == events[..n] + [events[n]];
    }
  }

  lemma {:induction false} MostOfferedIsMaximum(base: nat, events: seq<Filled>, key: string)
    ensures base <= MostOffered(base, events, key)
    ensures forall e :: e in events && About(e, key) ==> e.seatCount <= MostOffered(base, events, key)
    ensures MostOffered(base, events, key) == base
            || exists e :: e in events && About(e, key) && e.seatCount == MostOffered(base, events, key)
  {
    if events != [] {
      var n := |events| - 1;
      MostOfferedIsMaximum(base, events[..n], key);
      assert events == events[..n] + [events[n]];
    }
  }

  predicate FullAt(base: nat, events: seq<Filled>, key: string, i: nat)
    requires i < |events|
  {
    About(events[i], key) && MostFilled(events[..i + 1], key) >= MostOffered(base, events[..i + 1], key)
  }

  /** After some event of this seat, the most seats ever filled reached the most ever offered. */
  ghost predicate EverFull(base: nat, events: seq<Filled>, key: string) {
    exists i :: 0 <= i < |events| && FullAt(base, events, key, i)
  }

  lemma EverFullSnoc(base: nat, events: seq<Filled>, key: string)
    requires events != []
    ensures var n := |events| - 1; EverFull(base, events, key) <==> EverFull(base, events[..n], key) || FullAt(base, events, key, n)
  {
    var n := |events| - 1;
    forall i | 0 <= i < n ensures FullAt(base, events, key, i) == FullAt(base, events[..n], key, i) {
      assert events[..i + 1] == events[..n][..i + 1];
    }
    if EverFull(base, events[..n], key) {
      var i :| 0 <= i < n && FullAt(base, events[..n], key, i);
      assert FullAt(base, events, key, i);
    }
  }

  /** The counts are maxima over the events of the seat, and it is full exactly when it ever was. */
  lemma {:induction false} FilledFromIsExact(e: Advertised, events: seq<Filled>, key: string)
    ensures
      FilledFrom(OpenSeatFromAdvertised(e), events, key)
      == Seat(e, MostOffered(e.seatCount, events, key), MostFilled(events, key), if EverFull(e.seatCount, events, key) then Full else Open)
  {
    if events != [] {
      var n := |events| - 1;
      FilledFromIsExact(e, events[..n], key);
      EverFullSnoc(e.seatCount, events, key);
      assert events[..n + 1] == events;
      hide EverFull;
    }
  }

  function LastClosed(events: seq<Closed>, key: string): Option<Closed> {
    if events == [] then None
    else
      var e := events[|events| - 1];
      if SeatKey(e.clusterId, e.seatId) == key then Some(e) else LastClosed(events[..|events| - 1], key)
  }

  lemma {:induction false} ClosedFromIsLast(decode: nat -> Status, seat: Seat, events: seq<Closed>, key: string)
    ensures
      ClosedFrom(decode, seat, events, key)
      == match LastClosed(events, key) case None => seat case Some(e) => ApplyClosed(decode, seat, e)
  {
    if events != [] {
      ClosedFromIsLast(decode, seat, events[..|events| - 1], key);
    }
  }

  function LastAdvertised(events: seq<Advertised>, key: string): Option<Advertised> {
    if events == [] then None
    else
      var e := events[|events| - 1];
      if SeatKey(e.clusterId, e.seatId) == key then Some(e) else LastAdvertised(events[..|events| - 1], key)
  }

  /** The last event about a seat: it is in the list, about the seat, and none after it is. */
  lemma {:induction false} LastAdvertisedIsLast(events: seq<Advertised>, key: string)
    ensures match LastAdvertised(events, key)
            case None => forall e :: e in events ==> SeatKey(e.clusterId, e.seatId) != key
            case Some(e) =>
              && SeatKey(e.clusterId, e.seatId) == key
              && exists i :: 0 <= i < |events| && events[i] == e
                             && forall j :: i < j < |events| ==> SeatKey(events[j].clusterId, events[j].seatId) != key
  {
    if events != [] {
      var n := |events| - 1;
      LastAdvertisedIsLast(events[..n], key);
      assert events == events[..n] + [events[n]];
      if SeatKey(events[n].clusterId, events[n].seatId) == key {
        assert events[n] == LastAdvertised(events, key).value;
      } else if LastAdvertised(events, key).Some? {
        var i :| 0 <= i < n && events[..n][i] == LastAdvertised(events, key).value
                 && forall j :: i < j < n ==> SeatKey(events[..n][j].clusterId, events[..n][j].seatId) != key;
        assert events[i] == events[..n][i];
        assert forall j :: i < j < n ==> events[j] == events[..n][j];
      }
    }
  }

  /** The listing of a seat: terms of its last advertisement, maximal counts, and the status its last closing decodes to. */
  ghost function Listing(batch: Batch, decode: nat -> Status, key: string): Option<Seat> {
    match LastAdvertised(batch.advertised, key)
    case None => None
    case Some(terms) =>
      var status :=
        match LastClosed(batch.closed, key)
        case Some(e) => if decode(e.status) == NoStatus then Shut else decode(e.status)
        case None => if EverFull(terms.seatCount, batch.filled, key) then Full else Open;
      Some(Seat(terms, MostOffered(terms.seatCount, batch.filled, key), MostFilled(batch.filled, key), status))
  }

  lemma ListingIsFold(batch: Batch, decode: nat -> Status, key: string)
    ensures
      Listing(batch, decode, key)
      == match LastAdvertised(batch.advertised, key)
         case None => None
         case Some(e) => Some(ClosedFrom(decode, FilledFrom(OpenSeatFromAdvertised(e), batch.filled, key), batch.closed, key))
    ensures Listing(batch, decode, key) == AfterClosed(decode, batch.advertised, batch.filled, batch.closed, key)
  {
    hide EverFull, ClosedFrom, FilledFrom;
    var terms := LastAdvertised(batch.advertised, key);
    if terms.Some? {
      var seat := FilledFrom(OpenSeatFromAdvertised(terms.value), batch.filled, key);
      FilledFromIsExact(terms.value, batch.filled, key);
      ClosedFromIsLast(decode, seat, batch.closed, key);
    }
  }

  // ----- the order of the rows

  predicate Before(a: Seat, b: Seat) {
    a.terms.clusterId < b.terms.clusterId || (a.terms.clusterId == b.terms.clusterId && a.terms.seatId < b.terms.seatId)
  }

  predicate InOrder(rows: seq<Seat>) {
    forall i, j :: 0 <= i < j < |rows| ==> Before(rows[i], rows[j])
  }

  /** Clusters come in ascending order, and the seats of one cluster too; no seat comes twice. */
  lemma OrderedByClusterAndSeat(rows: seq<Seat>, i: nat, j: nat)
    requires InOrder(rows) && i < |rows| && j < |rows|
    ensures var a, b := rows[i].terms, rows[j].terms;
            i < j <==> a.clusterId < b.clusterId || (a.clusterId == b.clusterId && a.seatId < b.seatId)
  {
    assert i > j ==> Before(rows[j], rows[i]);
  }

  /** Puts a row of a seat that is not listed yet where the comparison of clusters and then of seats wants it. */
  function Place(row: Seat, rows: seq<Seat>): (r: seq<Seat>)
    requires InOrder(rows) && forall other :: other in rows ==> KeyOf(other) != KeyOf(row)
    ensures InOrder(r) && forall x :: x in r <==> x == row || x in rows
  {
    if rows == [] then [row]
    else if Before(row, rows[0]) then [row] + rows
    else
      assert rows[0] in rows;
      assert forall x :: x in rows[1..] ==> x in rows && Before(rows[0], x);
      var rest := Place(row, rows[1..]);
      assert KeyOf(rows[0]) != KeyOf(row);
      assert Before(rows[0], row);
      assert forall x :: x in rest ==> Before(rows[0], x);
      assert forall i :: 0 <= i < |rest| ==> rest[i] in rest;
      [rows[0]] + rest
  }

  // ----- the map of listings, with its keys in the order of insertion

  function AfterAdvertised(events: seq<Advertised>, key: string): Option<Seat> {
    match LastAdvertised(events, key)
    case None => None
    case Some(e) => Some(OpenSeatFromAdvertised(e))
  }

  function AfterFilled(advertised: seq<Advertised>, events: seq<Filled>, key: string): Option<Seat> {
    match AfterAdvertised(advertised, key)
    case None => None
    case Some(seat) => Some(FilledFrom(seat, events, key))
  }

  function AfterClosed(
      decode: nat -> Status, advertised: seq<Advertised>, filled: seq<Filled>, events: seq<Closed>, key: string): Option<Seat>
  {
    match AfterFilled(advertised, filled, key)
    case None => None
    case Some(seat) => Some(ClosedFrom(decode, seat, events, key))
  }

  predicate Entry(seats: map<string, Seat>, key: string, value: Option<Seat>) {
    if key in seats then value == Some(seats[key]) && KeyOf(seats[key]) == key else value == None
  }

  ghost predicate Lists(order: seq<string>, keys: set<string>) {
    && (forall k :: k in order <==> k in keys)
    && (forall i, j :: 0 <= i < j < |order| ==> order[i] != order[j])
  }

  method SeedListings(events: seq<Advertised>) returns (seats: map<string, Seat>, order: seq<string>)
    ensures forall k :: Entry(seats, k, AfterAdvertised(events, k))
    ensures Lists(order, seats.Keys)
  {
    seats, order := map[], [];
    for i := 0 to |events|
      invariant forall k :: Entry(seats, k, AfterAdvertised(events[..i], k))
      invariant Lists(order, seats.Keys)
    {
      var e := events[i];
      var key := SeatKey(e.clusterId, e.seatId);
      ghost var before := seats;
      if key !in seats {
        order := order + [key];
      }
      seats := seats[key := OpenSeatFromAdvertised(e)];
      ghost var next := events[..i + 1];
      assert next[..i] == events[..i];
      forall k ensures Entry(seats, k, AfterAdvertised(next, k)) {
        assert Entry(before, k, AfterAdvertised(events[..i], k));
      }
    }
    assert events[..|events|] == events;
  }

  method AdvanceListings(seeded: map<string, Seat>, ghost advertised: seq<Advertised>, events: seq<Filled>)
    returns (seats: map<string, Seat>)
    requires forall k :: Entry(seeded, k, AfterAdvertised(advertised, k))
    ensures forall k :: Entry(seats, k, AfterFilled(advertised, events, k))
    ensures seats.Keys == seeded.Keys
  {
    seats := seeded;
    for i := 0 to |events|
      invariant forall k :: Entry(seats, k, AfterFilled(advertised, events[..i], k))
      invariant seats.Keys == seeded.Keys
    {
      var e := events[i];
      var key := SeatKey(e.clusterId, e.seatId);
      ghost var before := seats;
      if key in seats {
        seats := seats[key := ApplyFilled(seats[key], e)];
      }
      ghost var next := events[..i + 1];
      assert next[..i] == events[..i];
      forall k ensures Entry(seats, k, AfterFilled(advertised, next, k)) {
        assert Entry(before, k, AfterFilled(advertised, events[..i], k));
      }
    }
    assert events[..|events|] == events;
  }

  method CloseListings(advanced: map<string, Seat>, decode: nat -> Status, ghost advertised: seq<Advertised>, ghost filled: seq<Filled>,
                       events: seq<Closed>) returns (seats: map<string, Seat>)
    requires forall k :: Entry(advanced, k, AfterFilled(advertised, filled, k))
    ensures forall k :: Entry(seats, k, AfterClosed(decode, advertised, filled, events, k))
    ensures seats.Keys == advanced.Keys
  {
    seats := advanced;
    for i := 0 to |events|
      invariant forall k :: Entry(seats, k, AfterClosed(decode, advertised, filled, events[..i], k))
      invariant seats.Keys == advanced.Keys
    {
      var e := events[i];
      var key := SeatKey(e.clusterId, e.seatId);
      ghost var before := seats;
      if key in seats {
        seats := seats[key := ApplyClosed(decode, seats[key], e)];
      }
      ghost var next := events[..i + 1];
      assert next[..i] == events[..i];
      forall k ensures Entry(seats, k, AfterClosed(decode, advertised, filled, next, k)) {
        assert Entry(before, k, AfterClosed(decode, advertised, filled, events[..i], k));
      }
    }
    assert events[..|events|] == events;
  }

  method SortListings(seats: map<string, Seat>, order: seq<string>) returns (rows: seq<Seat>)
    requires Lists(order, seats.Keys) && forall k :: k in seats ==> KeyOf(seats[k]) == k
    ensures InOrder(rows)
    ensures forall row :: row in rows <==> row in seats.Values
  {
    rows := [];
    for i := 0 to |order|
      invariant InOrder(rows)
      invariant forall row :: row in rows ==> KeyOf(row) in order[..i] && KeyOf(row) in seats && row == seats[KeyOf(row)]
      invariant forall j :: 0 <= j < i ==> seats[order[j]] in rows
    {
      assert order[i] in order && order[i] !in order[..i];
      rows := Place(seats[order[i]], rows);
    }
  }

  /** One row per advertised seat, in strict order of cluster and seat, each as its events say. */
  method FoldSeatEvents(batch: Batch, decode: nat -> Status) returns (rows: seq<Seat>)
    ensures InOrder(rows)
    ensures forall row :: row in rows ==> Listing(batch, decode, KeyOf(row)) == Some(row)
    ensures forall c: nat, s: nat :: Listing(batch, decode, SeatKey(c, s)).Some? ==>
              Listing(batch, decode, SeatKey(c, s)).value in rows
  {
    var seats, order := SeedListings(batch.advertised);
    seats := AdvanceListings(seats, batch.advertised, batch.filled);
    seats := CloseListings(seats, decode, batch.advertised, batch.filled, batch.closed);
    hide AfterClosed, Listing;
    forall k ensures Entry(seats, k, Listing(batch, decode, k)) {
      ListingIsFold(batch, decode, k);
    }
    forall k | k in seats ensures KeyOf(seats[k]) == k {
      assert Entry(seats, k, Listing(batch, decode, k));
    }
    rows := SortListings(seats, order);
    forall row | row in rows ensures Listing(batch, decode, KeyOf(row)) == Some(row) {
      var k :| k in seats && seats[k] == row;
      assert Entry(seats, k, Listing(batch, decode, k));
    }
    forall c: nat, s: nat | Listing(batch, decode, SeatKey(c, s)).Some?
      ensures Listing(batch, decode, SeatKey(c, s)).value in rows
    {
      assert Entry(seats, SeatKey(c, s), Listing(batch, decode, SeatKey(c, s)));
    }
  }

  // ----- the order of the filled events

  ghost predicate SameEvents(p: seq<Filled>, q: seq<Filled>) {
    multiset(p) == multiset(q)
  }

  lemma SameMembers(p: seq<Filled>, q: seq<Filled>)
    requires SameEvents(p, q)
    ensures forall e :: e in p <==> e in q
  {
    assert forall e :: e in p <==> e in multiset(p);
    assert forall e :: e in q <==> e in multiset(q);
  }

  /** The counts of a listing do not depend on the order. */
  lemma CountsIgnoreOrder(base: nat, p: seq<Filled>, q: seq<Filled>, key: string)
    requires SameEvents(p, q)
    ensures MostFilled(p, key) == MostFilled(q, key) && MostOffered(base, p, key) == MostOffered(base, q, key)
  {
    SameMembers(p, q);
    MostFilledIsMaximum(p, key);
    MostFilledIsMaximum(q, key);
    MostOfferedIsMaximum(base, p, key);
    MostOfferedIsMaximum(base, q, key);
  }

  /** An event that by itself reports a full seat. */
  predicate Fills(base: nat, e: Filled, key: string) {
    About(e, key) && e.filledCount >= Max(base, e.seatCount)
  }

  ghost predicate SomeFills(base: nat, events: seq<Filled>, key: string) {
    exists e :: e in events && Fills(base, e, key)
  }

  lemma FullNeedsOne(base: nat, events: seq<Filled>, key: string)
    requires EverFull(base, events, key)
    ensures SomeFills(base, events, key)
  {
    var i :| 0 <= i < |events| && FullAt(base, events, key, i);
    var prefix := events[..i + 1];
    MostFilledIsMaximum(prefix, key);
    MostOfferedIsMaximum(base, prefix, key);
    assert prefix[i] == events[i] && events[i] in prefix;
    var e :| e in prefix && About(e, key) && (MostFilled(prefix, key) == 0 || e.filledCount == MostFilled(prefix, key));
    assert e in events && Fills(base, e, key);
  }

  lemma {:induction false} FullAtEnd(base: nat, events: seq<Filled>, key: string)
    requires MostFilled(events, key) >= MostOffered(base, events, key) && exists e :: e in events && About(e, key)
    ensures EverFull(base, events, key)
  {
    var n := |events| - 1;
    assert events == events[..n] + [events[n]] && events[..n + 1] == events;
    EverFullSnoc(base, events, key);
    if !About(events[n], key) {
      FullAtEnd(base, events[..n], key);
    }
  }

  lemma FullWhenFirst(base: nat, e: Filled, rest: seq<Filled>, key: string)
    requires Fills(base, e, key)
    ensures EverFull(base, [e] + rest, key)
  {
    var events := [e] + rest;
    assert events[..0 + 1] == [e] && [e][..0] == [];
    assert FullAt(base, events, key, 0);
  }

  lemma NeverFullBelow(base: nat, events: seq<Filled>, key: string)
    requires MostFilled(events, key) < base || (events != [] && About(events[0], key) && MostFilled(events, key) < events[0].seatCount)
    ensures !EverFull(base, events, key)
  {
    MostFilledIsMaximum(events, key);
    forall i | 0 <= i < |events| ensures !FullAt(base, events, key, i) {
      var prefix := events[..i + 1];
      MostFilledIsMaximum(prefix, key);
      MostOfferedIsMaximum(base, prefix, key);
      assert prefix[0] == events[0] && events[0] in prefix;
    }
  }

  function ToFront(events: seq<Filled>, i: nat): seq<Filled>
    requires i < |events|
  {
    [events[i]] + (events[..i] + events[i + 1..])
  }

  lemma ToFrontSame(events: seq<Filled>, i: nat)
    requires i < |events|
    ensures SameEvents(ToFront(events, i), events)
  {
    assert events == events[..i] + [events[i]] + events[i + 1..];
  }

  /** Some order of the events makes the seat full and some other does not. */
  ghost predicate OrderMatters(base: nat, events: seq<Filled>, key: string) {
    exists p, q :: SameEvents(p, events) && SameEvents(q, events) && EverFull(base, p, key) && !EverFull(base, q, key)
  }

  lemma NotFullInSomeOrder(base: nat, events: seq<Filled>, key: string) returns (q: seq<Filled>)
    requires MostFilled(events, key) < MostOffered(base, events, key)
    ensures SameEvents(q, events) && !EverFull(base, q, key)
  {
    MostOfferedIsMaximum(base, events, key);
    q := events;
    if MostOffered(base, events, key) != base {
      var i :| 0 <= i < |events| && About(events[i], key) && events[i].seatCount == MostOffered(base, events, key);
      q := ToFront(events, i);
      ToFrontSame(events, i);
    }
    CountsIgnoreOrder(base, q, events, key);
    NeverFullBelow(base, q, key);
  }

  /** The order decides exactly when the seat is not full in the end although one event by itself reports it full. */
  lemma OrderMattersExactly(base: nat, events: seq<Filled>, key: string)
    ensures OrderMatters(base, events, key) <==>
              MostFilled(events, key) < MostOffered(base, events, key) && SomeFills(base, events, key)
  {
    if OrderMatters(base, events, key) {
      var p, q :| SameEvents(p, events) && SameEvents(q, events) && EverFull(base, p, key) && !EverFull(base, q, key);
      FullNeedsOne(base, p, key);
      SameMembers(p, events);
      SameMembers(q, events);
      CountsIgnoreOrder(base, q, events, key);
      var e :| e in p && Fills(base, e, key);
      assert e in q && e in events;
      if MostFilled(events, key) >= MostOffered(base, events, key) {
        FullAtEnd(base, q, key);
      }
    }
    if MostFilled(events, key) < MostOffered(base, events, key) && SomeFills(base, events, key) {
      var e :| e in events && Fills(base, e, key);
      var i :| 0 <= i < |events| && events[i] == e;
      var p := ToFront(events, i);
      var q := NotFullInSomeOrder(base, events, key);
      ToFrontSame(events, i);
      FullWhenFirst(base, e, events[..i] + events[i + 1..], key);
      assert SameEvents(p, events) && EverFull(base, p, key);
    }
  }

  /** Every event of a seat repeats the advertised number of seats. */
  ghost predicate SeatCountsAgree(base: nat, events: seq<Filled>, key: string) {
    forall e :: e in events && About(e, key) ==> e.seatCount == base
  }

  /** Where the seat counts agree, a listing is the same for every order of the filled events. */
  lemma ListingIgnoresOrder(batch: Batch, filled: seq<Filled>, decode: nat -> Status, key: string)
    requires SameEvents(filled, batch.filled)
    requires var terms := LastAdvertised(batch.advertised, key); terms.Some? ==> SeatCountsAgree(terms.value.seatCount, batch.filled, key)
    ensures Listing(batch.(filled := filled), decode, key) == Listing(batch, decode, key)
  {
    hide LastAdvertised, EverFull;
    var terms := LastAdvertised(batch.advertised, key);
    if terms.Some? {
      var base := terms.value.seatCount;
      CountsIgnoreOrder(base, filled, batch.filled, key);
      MostFilledIsMaximum(batch.filled, key);
      MostOfferedIsMaximum(base, batch.filled, key);
      OrderMattersExactly(base, batch.filled, key);
      assert !OrderMatters(base, batch.filled, key);
      assert SameEvents(batch.filled, batch.filled);
    }
  }

  lemma TwoEvents(base: nat, a: Filled, b: Filled, key: string)
    requires About(a, key) && About(b, key)
    ensures MostFilled([a, b], key) == Max(a.filledCount, b.filledCount)
    ensures MostOffered(base, [a, b], key) == Max(Max(base, a.seatCount), b.seatCount)
  {
    assert [a, b][..1] == [a] && [a][..0] == [];
    assert MostFilled([a], key) == a.filledCount && MostOffered(base, [a], key) == Max(base, a.seatCount);
  }

  /** Without that agreement the order shows: full and then offered more seats, or offered more seats and never full. */
  lemma OrderShows(decode: nat -> Status)
    ensures
      var terms := Advertised(1, 2, "0x", 0, 1, 0, 0, "0x");
      var small, large := Filled(1, 2, "0x", 1, 1), Filled(1, 2, "0x", 1, 3);
      && Listing(Batch([terms], [], [small, large], []), decode, SeatKey(1, 2)) == Some(Seat(terms, 3, 1, Full))
      && Listing(Batch([terms], [], [large, small], []), decode, SeatKey(1, 2)) == Some(Seat(terms, 3, 1, Open))
  {
    var terms := Advertised(1, 2, "0x", 0, 1, 0, 0, "0x");
    var small, large, key := Filled(1, 2, "0x", 1, 1), Filled(1, 2, "0x", 1, 3), SeatKey(1, 2);
    TwoEvents(1, small, large, key);
    TwoEvents(1, large, small, key);
    FullWhenFirst(1, small, [large], key);
    assert [small, large] == [small] + [large];
    NeverFullBelow(1, [large, small], key);
  }

  // ----- applications and open seats

  function Applications(events: seq<Applied>, key: string): nat {
    if events == [] then 0
    else
      var e := events[|events| - 1];
      Applications(events[..|events| - 1], key) + if SeatKey(e.clusterId, e.seatId) == key then 1 else 0
  }

  method CountApplications(events: seq<Applied>) returns (counts: map<string, nat>)
    ensures forall k :: (if k in counts then counts[k] else 0) == Applications(events, k)
    ensures forall k :: k in counts <==> Applications(events, k) > 0
  {
    counts := map[];
    for i := 0 to |events|
      invariant forall k :: (if k in counts then counts[k] else 0) == Applications(events[..i], k)
      invariant forall k :: k in counts ==> counts[k] > 0
    {
      var key := SeatKey(events[i].clusterId, events[i].seatId);
      ghost var next := events[..i + 1];
      assert next[..i] == events[..i];
      counts := counts[key := (if key in counts then counts[key] else 0) + 1];
    }
    assert events[..|events|] == events;
  }

  predicate HasVacancy(seat: Seat) {
    seat.status == Open && seat.filledCount < seat.seatCount
  }

  function Vacancies(rows: seq<Seat>): (r: seq<Seat>)
    ensures forall x :: x in r <==> x in rows && x.status == Open && x.filledCount < x.seatCount
    ensures |r| <= |rows|
  {
    if rows == [] then [] else (if HasVacancy(rows[0]) then [rows[0]] else []) + Vacancies(rows[1..])
  }

  function Listed(rows: seq<Seat>, limit: nat): seq<Seat> {
    var open := Vacancies(rows);
    if |open| <= limit then open else open[..limit]
  }

  /** The vacancies are the rows of seats that are open and have room, in the same order; the limit cuts the tail. */
  lemma {:induction false} VacanciesInOrder(rows: seq<Seat>)
    requires InOrder(rows)
    ensures InOrder(Vacancies(rows))
  {
    if rows != [] {
      VacanciesInOrder(rows[1..]);
      assert forall x :: x in rows[1..] ==> Before(rows[0], x);
      assert forall i :: 0 <= i < |Vacancies(rows[1..])| ==> Vacancies(rows[1..])[i] in rows[1..];
    }
  }

  lemma ListedAreFirst(rows: seq<Seat>, limit: nat)
    requires InOrder(rows)
    ensures |Listed(rows, limit)| <= limit && InOrder(Listed(rows, limit))
    ensures forall x :: x in Listed(rows, limit) ==> x in rows && x.status == Open && x.filledCount < x.seatCount
    ensures forall x :: x in rows && x.status == Open && x.filledCount < x.seatCount ==>
              x in Listed(rows, limit) || (|Listed(rows, limit)| == limit && forall y :: y in Listed(rows, limit) ==> Before(y, x))
  {
    VacanciesInOrder(rows);
    var open := Vacancies(rows);
    if |open| > limit {
      assert forall i :: 0 <= i < limit ==> open[..limit][i] == open[i] && open[i] in open[..limit];
      forall x | x in open && x !in open[..limit] ensures forall y :: y in open[..limit] ==> Before(y, x) {
        var i :| 0 <= i < |open| && open[i] == x;
        assert i >= limit;
      }
    }
  }
}
