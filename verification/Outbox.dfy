/** The local outbox of signed payloads: a list of entries, newest first, found by id. */
module Outbox {
  import opened Options

  datatype Status = Signed | Submitted | Confirmed | Failed | Expired

  datatype Attempt = Attempt(ok: bool, txHash: Option<string>)

  datatype Entry = Entry(
    id: string,
    status: Status,
    walletName: string,
    amount: nat,
    lowValueReserved: bool,
    expiresAt: int,
    txHash: Option<string>,
    attempts: seq<Attempt>)

  ghost predicate UniqueIds(entries: seq<Entry>) {
    forall i, j :: 0 <= i < j < |entries| ==> entries[i].id != entries[j].id
  }

  /** The first entry with the id, or the length of the list when there is none. */
  function IndexOf(entries: seq<Entry>, id: string): (i: nat)
    ensures i <= |entries|
    ensures i < |entries| ==> entries[i].id == id
    ensures forall k :: 0 <= k < i ==> entries[k].id != id
  {
    if entries == [] || entries[0].id == id then 0 else 1 + IndexOf(entries[1..], id)
  }

  predicate Has(entries: seq<Entry>, id: string) {
    IndexOf(entries, id) < |entries|
  }

  function Get(entries: seq<Entry>, id: string): Entry
    requires Has(entries, id)
  {
    entries[IndexOf(entries, id)]
  }

  function Put(entries: seq<Entry>, id: string, e: Entry): seq<Entry>
    requires Has(entries, id)
  {
    entries[IndexOf(entries, id) := e]
  }

  /** An accepted broadcast counts as a submission only when the node echoed a non-empty hash. */
  function Attempted(e: Entry, attempt: Attempt): Entry {
    var e1 := e.(attempts := [attempt] + e.attempts);
    if attempt.ok && attempt.txHash.Some? && attempt.txHash.value != "" then
      e1.(status := Submitted, txHash := attempt.txHash)
    else e1
  }

  function Restated(e: Entry, status: Status, txHash: Option<string>): Entry {
    e.(status := status, txHash := if txHash.Some? then txHash else e.txHash)
  }

  lemma PutKeepsUnique(entries: seq<Entry>, id: string, e: Entry)
    requires UniqueIds(entries) && Has(entries, id) && e.id == id
    ensures UniqueIds(Put(entries, id, e))
  {
  }

  /** The list without the entries of an id. */
  function Without(entries: seq<Entry>, id: string): seq<Entry> {
    if entries == [] then []
    else (if entries[0].id != id then [entries[0]] else []) + Without(entries[1..], id)
  }

  lemma {:induction false} WithoutAbsent(entries: seq<Entry>, id: string)
    requires !Has(entries, id)
    ensures Without(entries, id) == entries
  {
    if entries != [] {
      WithoutAbsent(entries[1..], id);
      assert entries == [entries[0]] + entries[1..];
    }
  }
}
