/**
 The low-value ledger kept beside the outbox: every handler that builds, submits, releases or settles a payload
 updates both. The ledger state is a value here; LedgerDesk holds it in fields and rewrites it step by step.
 */
module Ledger {
  import opened Options
  import opened LowValue
  import O = Outbox

  datatype Ledger = Ledger(policies: map<string, Policy>, entries: seq<O.Entry>)

  datatype Broadcast = NotSent | Refused | Accepted(txHash: string)

  /** One handler call with everything the outside world contributes to it. */
  datatype Call =
    | Build(id: string, walletName: string, amount: nat, expiresAt: int, lowValue: bool, broadcast: Broadcast)
    | Submit(id: string, allowExpired: bool, broadcast: Broadcast)
    | Release(id: string, toFailed: bool)
    | Settle(id: string, txHash: Option<string>, receipt: Option<bool>)

  function BucketOf(s: O.Status): Bucket {
    match s
    case Signed => Reserved
    case Submitted => Submitted
    case Confirmed => Confirmed
    case Failed => Failed
    case Expired => Expired
  }

  /** A move between buckets that a call asks for. */
  datatype Transfer = Transfer(walletName: string, amount: nat, from: Bucket, to: Bucket)

  function Shift(policies: map<string, Policy>, today: string, t: Transfer): map<string, Policy> {
    if t.walletName in policies then
      policies[t.walletName := Move(policies[t.walletName], today, t.amount, t.from, t.to)]
    else policies
  }

  // ----- what each call does

  predicate LowValueSigns(l: Ledger, today: string, walletName: string, amount: nat) {
    walletName in l.policies && l.policies[walletName].enabled && SignerAdmits(l.policies[walletName], today, amount)
  }

  function Sent(e: O.Entry, b: Broadcast): O.Entry {
    match b
    case NotSent => e
    case Refused => O.Attempted(e, O.Attempt(false, None))
    case Accepted(hash) => O.Attempted(e, O.Attempt(true, Some(hash)))
  }

  /** The move that goes with an accepted broadcast; it is decided on the entry as read before the broadcast. */
  function SubmitTransfer(e: O.Entry, allowExpired: bool, b: Broadcast): Option<Transfer> {
    if !b.Accepted? || !e.lowValueReserved then None
    else if e.status.Signed? then Some(Transfer(e.walletName, e.amount, Reserved, Submitted))
    else if e.status.Expired? && allowExpired then Some(Transfer(e.walletName, e.amount, Expired, Submitted))
    else None
  }

  function ShiftIf(policies: map<string, Policy>, today: string, t: Option<Transfer>): map<string, Policy> {
    if t.Some? then Shift(policies, today, t.value) else policies
  }

  /** A transfer build checks the echoed hash itself, so an empty one counts as a refusal. */
  function Checked(b: Broadcast): Broadcast {
    if b.Accepted? && b.txHash == "" then Refused else b
  }

  function NewEntry(c: Call): O.Entry
    requires c.Build?
  {
    O.Entry(c.id, O.Signed, c.walletName, c.amount, c.lowValue, c.expiresAt, None, [])
  }

  function AfterBuild(l: Ledger, today: string, c: Call): Ledger
    requires c.Build?
  {
    if c.lowValue && !LowValueSigns(l, today, c.walletName, c.amount) then l
    else
      var reserved := if c.lowValue
        then l.policies[c.walletName := Reserve(l.policies[c.walletName], today, c.amount)]
        else l.policies;
      var e := NewEntry(c);
      Ledger(ShiftIf(reserved, today, SubmitTransfer(e, false, Checked(c.broadcast))),
             [Sent(e, Checked(c.broadcast))] + l.entries)
  }

  function AfterSubmit(l: Ledger, today: string, c: Call): Ledger
    requires c.Submit?
  {
    if !O.Has(l.entries, c.id) then l
    else
      var e := O.Get(l.entries, c.id);
      if e.status.Expired? && !c.allowExpired then l
      else Ledger(ShiftIf(l.policies, today, SubmitTransfer(e, c.allowExpired, c.broadcast)),
                  O.Put(l.entries, c.id, Sent(e, c.broadcast)))
  }

  function AfterRelease(l: Ledger, today: string, c: Call): Ledger
    requires c.Release?
  {
    if !O.Has(l.entries, c.id) then l
    else
      var e := O.Get(l.entries, c.id);
      if !e.lowValueReserved || !e.status.Signed? then l
      else Ledger(Shift(l.policies, today, Transfer(e.walletName, e.amount, Reserved, if c.toFailed then Failed else Expired)),
                  O.Put(l.entries, c.id, O.Restated(e, if c.toFailed then O.Failed else O.Expired, None)))
  }

  function SettleTransfer(e: O.Entry, ok: bool): Option<Transfer> {
    if e.lowValueReserved && e.status.Submitted?
      then Some(Transfer(e.walletName, e.amount, Submitted, if ok then Confirmed else Failed))
    else None
  }

  function SettledHash(e: O.Entry, txHash: Option<string>): Option<string> {
    if txHash.Some? then txHash else e.txHash
  }

  function AfterSettle(l: Ledger, today: string, c: Call): Ledger
    requires c.Settle?
  {
    if !O.Has(l.entries, c.id) then l
    else
      var e := O.Get(l.entries, c.id);
      var hash := SettledHash(e, c.txHash);
      if hash.None? || hash.value == "" || c.receipt.None? then l
      else
        Ledger(ShiftIf(l.policies, today, SettleTransfer(e, c.receipt.value)),
               O.Put(l.entries, c.id, O.Restated(e, if c.receipt.value then O.Confirmed else O.Failed, hash)))
  }

  function After(l: Ledger, today: string, c: Call): Ledger {
    match c
    case Build(_, _, _, _, _, _) => AfterBuild(l, today, c)
    case Submit(_, _, _) => AfterSubmit(l, today, c)
    case Release(_, _) => AfterRelease(l, today, c)
    case Settle(_, _, _) => AfterSettle(l, today, c)
  }

  function Run(l: Ledger, today: string, calls: seq<Call>): Ledger
    decreases |calls|
  {
    if calls == [] then l else Run(After(l, today, calls[0]), today, calls[1..])
  }

  lemma {:induction false} RunSnoc(l: Ledger, today: string, calls: seq<Call>, c: Call)
    ensures Run(l, today, calls + [c]) == After(Run(l, today, calls), today, c)
    decreases |calls|
  {
    if calls == [] {
      assert [] + [c] == [c];
    } else {
      assert (calls + [c])[1..] == calls[1..] + [c];
      RunSnoc(After(l, today, calls[0]), today, calls[1..], c);
    }
  }

  /** The releases that expiring stale reservations asks for, in list order. */
  function StaleReleases(entries: seq<O.Entry>, now: int): seq<Call> {
    if entries == [] then []
    else (if IsStale(entries[0], now) then [Release(entries[0].id, false)] else []) + StaleReleases(entries[1..], now)
  }

  predicate IsStale(e: O.Entry, now: int) {
    e.status.Signed? && e.lowValueReserved && e.expiresAt <= now
  }

  lemma {:induction false} StaleReleasesSnoc(entries: seq<O.Entry>, now: int, i: nat)
    requires i < |entries|
    ensures StaleReleases(entries[..i + 1], now) ==
            StaleReleases(entries[..i], now) + (if IsStale(entries[i], now) then [Release(entries[i].id, false)] else [])
  {
    if i > 0 {
      StaleReleasesSnoc(entries[1..], now, i - 1);
      assert entries[..i + 1][1..] == entries[1..][..i] && entries[..i][1..] == entries[1..][..i - 1];
    }
  }

  // ----- the account the buckets are measured against: sums over the outbox

  function Share(e: O.Entry, walletName: string, s: O.Status): nat {
    if e.lowValueReserved && e.walletName == walletName && e.status == s then e.amount else 0
  }

  function Sum(entries: seq<O.Entry>, walletName: string, s: O.Status): nat {
    if entries == [] then 0 else Share(entries[0], walletName, s) + Sum(entries[1..], walletName, s)
  }

  /** Every bucket of every wallet equals the sum of its reserved entries in the matching status. */
  ghost predicate InStep(l: Ledger, today: string) {
    forall w, s :: w in l.policies ==> l.policies[w].Held(today, BucketOf(s)) == Sum(l.entries, w, s)
  }

  /** A reserved entry carries a hash only once submitted, and a settled one carries the chain's stable verdict on it. */
  ghost predicate HashStory(e: O.Entry, verdict: string -> bool) {
    e.lowValueReserved ==>
      && (e.status.Signed? || e.status.Expired? ==> e.txHash.None?)
      && (e.status.Confirmed? ==> e.txHash.Some? && verdict(e.txHash.value))
      && (e.status.Failed? && e.txHash.Some? ==> !verdict(e.txHash.value))
  }

  ghost predicate Inv(l: Ledger, today: string, verdict: string -> bool) {
    && O.UniqueIds(l.entries)
    && InStep(l, today)
    && (forall i :: 0 <= i < |l.entries| ==> HashStory(l.entries[i], verdict))
  }

  /**
   The calls of an ordinary day. A caller can check each condition beforehand: new ids are new; a reserved payload is
   resubmitted only while signed, submitted or expired, and the node echoes a non-empty hash when it accepts it; a
   reserved payload is settled by its outbox id with the chain's verdict on its own hash.
   */
  ghost predicate Ordinary(l: Ledger, c: Call, verdict: string -> bool) {
    match c
    case Build(id, _, _, _, _, _) => !O.Has(l.entries, id)
    case Submit(id, _, b) =>
      (O.Has(l.entries, id) && O.Get(l.entries, id).lowValueReserved && b.Accepted?) ==>
        var s := O.Get(l.entries, id).status;
        s.Submitted? || ((s.Signed? || s.Expired?) && b.txHash != "")
    case Release(_, _) => true
    case Settle(id, txHash, receipt) =>
      (O.Has(l.entries, id) && O.Get(l.entries, id).lowValueReserved) ==>
        && txHash.None?
        && (receipt.Some? && O.Get(l.entries, id).txHash.Some? ==> receipt.value == verdict(O.Get(l.entries, id).txHash.value))
  }

  ghost predicate OrdinaryRun(l: Ledger, today: string, calls: seq<Call>, verdict: string -> bool)
    decreases |calls|
  {
    calls == [] || (Ordinary(l, calls[0], verdict) && OrdinaryRun(After(l, today, calls[0]), today, calls[1..], verdict))
  }

  // ----- sums under one change of the outbox

  lemma {:induction false} SumUpdate(entries: seq<O.Entry>, i: nat, e: O.Entry, w: string, s: O.Status)
    requires i < |entries|
    ensures Sum(entries[i := e], w, s) + Share(entries[i], w, s) == Sum(entries, w, s) + Share(e, w, s)
  {
    if i > 0 {
      SumUpdate(entries[1..], i - 1, e, w, s);
      assert entries[i := e][1..] == entries[1..][i - 1 := e];
    } else {
      assert entries[i := e][1..] == entries[1..];
    }
  }

  lemma {:induction false} ShareBelowSum(entries: seq<O.Entry>, i: nat, w: string, s: O.Status)
    requires i < |entries|
    ensures Share(entries[i], w, s) <= Sum(entries, w, s)
  {
    if i > 0 {
      ShareBelowSum(entries[1..], i - 1, w, s);
    }
  }

  // ----- one call keeps buckets and outbox in step

  /** Moving a reserved entry from one status to another, in the outbox and in the ledger, keeps them in step. */
  lemma MoveKeepsStep(l: Ledger, today: string, id: string, e': O.Entry)
    requires InStep(l, today) && O.Has(l.entries, id)
    requires
      var e := O.Get(l.entries, id);
      e.lowValueReserved && e' == e.(status := e'.status, txHash := e'.txHash, attempts := e'.attempts) && e'.status != e.status
    ensures
      var e := O.Get(l.entries, id);
      var t := Transfer(e.walletName, e.amount, BucketOf(e.status), BucketOf(e'.status));
      InStep(Ledger(Shift(l.policies, today, t), O.Put(l.entries, id, e')), today)
    ensures
      var e := O.Get(l.entries, id);
      e.walletName in l.policies ==> e.amount <= l.policies[e.walletName].Held(today, BucketOf(e.status))
  {
    hide LowValue.Move, LowValue.Policy.Held;
    var i := O.IndexOf(l.entries, id);
    var e := l.entries[i];
    var t := Transfer(e.walletName, e.amount, BucketOf(e.status), BucketOf(e'.status));
    var l' := Ledger(Shift(l.policies, today, t), O.Put(l.entries, id, e'));
    ShareBelowSum(l.entries, i, e.walletName, e.status);
    forall w, s | w in l'.policies
      ensures l'.policies[w].Held(today, BucketOf(s)) == Sum(l'.entries, w, s)
    {
      SumUpdate(l.entries, i, e', w, s);
      if w == e.walletName {
        MoveHolds(l.policies[w], today, t.amount, t.from, t.to, BucketOf(s));
      }
    }
  }

  /** A change that leaves status, wallet, amount and reservation of an entry alone leaves all sums alone. */
  lemma QuietKeepsStep(l: Ledger, today: string, id: string, e': O.Entry)
    requires InStep(l, today) && O.Has(l.entries, id)
    requires
      var e := O.Get(l.entries, id);
      && e'.lowValueReserved == e.lowValueReserved && e'.walletName == e.walletName && e'.amount == e.amount
      && (e.lowValueReserved ==> e'.status == e.status)
    ensures InStep(Ledger(l.policies, O.Put(l.entries, id, e')), today)
  {
    var i := O.IndexOf(l.entries, id);
    forall w, s | w in l.policies
      ensures l.policies[w].Held(today, BucketOf(s)) == Sum(O.Put(l.entries, id, e'), w, s)
    {
      SumUpdate(l.entries, i, e', w, s);
    }
  }

  lemma PutKeepsInv(l: Ledger, l': Ledger, today: string, verdict: string -> bool, id: string, e': O.Entry)
    requires Inv(l, today, verdict) && O.Has(l.entries, id) && e'.id == id
    requires l'.entries == O.Put(l.entries, id, e') && InStep(l', today) && HashStory(e', verdict)
    ensures Inv(l', today, verdict)
  {
    O.PutKeepsUnique(l.entries, id, e');
  }

  lemma SubmitKeepsInv(l: Ledger, today: string, c: Call, verdict: string -> bool)
    requires c.Submit? && Inv(l, today, verdict) && Ordinary(l, c, verdict)
    ensures Inv(After(l, today, c), today, verdict)
  {
    hide InStep, Shift, O.Put, O.UniqueIds;
    if O.Has(l.entries, c.id) {
      var e := O.Get(l.entries, c.id);
      if !(e.status.Expired? && !c.allowExpired) {
        var e' := Sent(e, c.broadcast);
        if SubmitTransfer(e, c.allowExpired, c.broadcast).Some? {
          MoveKeepsStep(l, today, c.id, e');
        } else {
          QuietKeepsStep(l, today, c.id, e');
        }
        PutKeepsInv(l, After(l, today, c), today, verdict, c.id, e');
      }
    }
  }

  lemma ReleaseKeepsInv(l: Ledger, today: string, c: Call, verdict: string -> bool)
    requires c.Release? && Inv(l, today, verdict)
    ensures Inv(After(l, today, c), today, verdict)
  {
    if O.Has(l.entries, c.id) {
      var e := O.Get(l.entries, c.id);
      if e.lowValueReserved && e.status.Signed? {
        var e' := O.Restated(e, if c.toFailed then O.Failed else O.Expired, None);
        MoveKeepsStep(l, today, c.id, e');
        PutKeepsInv(l, After(l, today, c), today, verdict, c.id, e');
      }
    }
  }

  lemma SettleKeepsInv(l: Ledger, today: string, c: Call, verdict: string -> bool)
    requires c.Settle? && Inv(l, today, verdict) && Ordinary(l, c, verdict)
    ensures Inv(After(l, today, c), today, verdict)
  {
    if O.Has(l.entries, c.id) && c.receipt.Some? {
      var e := O.Get(l.entries, c.id);
      var hash := SettledHash(e, c.txHash);
      if hash.Some? && hash.value != "" {
        var e' := O.Restated(e, if c.receipt.value then O.Confirmed else O.Failed, hash);
        if SettleTransfer(e, c.receipt.value).Some? {
          MoveKeepsStep(l, today, c.id, e');
        } else {
          QuietKeepsStep(l, today, c.id, e');
        }
        PutKeepsInv(l, After(l, today, c), today, verdict, c.id, e');
      }
    }
  }

  lemma PrependKeepsStep(l: Ledger, today: string, e: O.Entry)
    requires InStep(l, today) && e.status.Signed?
    requires e.lowValueReserved ==> e.walletName in l.policies
    ensures
      var policies := if e.lowValueReserved
        then l.policies[e.walletName := Reserve(l.policies[e.walletName], today, e.amount)] else l.policies;
      InStep(Ledger(policies, [e] + l.entries), today)
  {
  }

  lemma BuildKeepsInv(l: Ledger, today: string, c: Call, verdict: string -> bool)
    requires c.Build? && Inv(l, today, verdict) && Ordinary(l, c, verdict)
    ensures Inv(After(l, today, c), today, verdict)
  {
    if !c.lowValue || LowValueSigns(l, today, c.walletName, c.amount) {
      var e := NewEntry(c);
      PrependKeepsStep(l, today, e);
      var policies := if c.lowValue
        then l.policies[c.walletName := Reserve(l.policies[c.walletName], today, c.amount)] else l.policies;
      var l1 := Ledger(policies, [e] + l.entries);
      var e' := Sent(e, Checked(c.broadcast));
      assert O.IndexOf(l1.entries, c.id) == 0;
      assert O.Put(l1.entries, c.id, e') == [e'] + l.entries;
      if SubmitTransfer(e, false, Checked(c.broadcast)).Some? {
        MoveKeepsStep(l1, today, c.id, e');
      } else {
        QuietKeepsStep(l1, today, c.id, e');
      }
      PutKeepsInv(l1, After(l, today, c), today, verdict, c.id, e');
    }
  }

  lemma CallKeepsInv(l: Ledger, today: string, c: Call, verdict: string -> bool)
    requires Inv(l, today, verdict) && Ordinary(l, c, verdict)
    ensures Inv(After(l, today, c), today, verdict)
  {
    match c
    case Build(_, _, _, _, _, _) => BuildKeepsInv(l, today, c, verdict);
    case Submit(_, _, _) => SubmitKeepsInv(l, today, c, verdict);
    case Release(_, _) => ReleaseKeepsInv(l, today, c, verdict);
    case Settle(_, _, _) => SettleKeepsInv(l, today, c, verdict);
  }

  /** Over every ordinary run, each bucket stays equal to the sum of the reserved entries in the matching status. */
  lemma {:induction false} RunKeepsStep(l: Ledger, today: string, calls: seq<Call>, verdict: string -> bool)
    requires Inv(l, today, verdict) && OrdinaryRun(l, today, calls, verdict)
    ensures Inv(Run(l, today, calls), today, verdict)
    decreases |calls|
  {
    if calls != [] {
      CallKeepsInv(l, today, calls[0], verdict);
      RunKeepsStep(After(l, today, calls[0]), today, calls[1..], verdict);
    }
  }

  // ----- the saturating branch never fires

  /** The move a call makes, and the policies it is made on. */
  function TransferOf(l: Ledger, c: Call): Option<Transfer> {
    if c.Build? then SubmitTransfer(NewEntry(c), false, Checked(c.broadcast))
    else if !O.Has(l.entries, c.id) then None
    else
      var e := O.Get(l.entries, c.id);
      match c
      case Submit(_, allowExpired, b) => SubmitTransfer(e, allowExpired, b)
      case Release(_, toFailed) =>
        if e.lowValueReserved && e.status.Signed?
          then Some(Transfer(e.walletName, e.amount, Reserved, if toFailed then Failed else Expired)) else None
      case Settle(_, txHash, receipt) =>
        var hash := SettledHash(e, txHash);
        if hash.None? || hash.value == "" || receipt.None? then None else SettleTransfer(e, receipt.value)
  }

  function BeforeMove(l: Ledger, today: string, c: Call): map<string, Policy> {
    if c.Build? && c.lowValue && LowValueSigns(l, today, c.walletName, c.amount)
      then l.policies[c.walletName := Reserve(l.policies[c.walletName], today, c.amount)]
    else l.policies
  }

  /** The policies after a call are those before its move with the move applied. */
  lemma CallIsItsTransfer(l: Ledger, today: string, c: Call)
    requires c.Build? && c.lowValue ==> LowValueSigns(l, today, c.walletName, c.amount)
    ensures After(l, today, c).policies == ShiftIf(BeforeMove(l, today, c), today, TransferOf(l, c))
  {
  }

  /** On an ordinary call the source bucket always holds the whole amount moved, so nothing is clipped at zero. */
  lemma NeverSaturates(l: Ledger, today: string, c: Call, verdict: string -> bool)
    requires Inv(l, today, verdict) && Ordinary(l, c, verdict)
    requires c.Build? && c.lowValue ==> LowValueSigns(l, today, c.walletName, c.amount)
    ensures
      var (policies, t) := (BeforeMove(l, today, c), TransferOf(l, c));
      t.Some? && t.value.walletName in policies ==>
        t.value.amount <= policies[t.value.walletName].Held(today, t.value.from)
  {
    var t := TransferOf(l, c);
    if t.Some? {
      if c.Build? {
        if c.lowValue {
          ReserveHolds(l.policies[c.walletName], today, c.amount);
        }
      } else {
        var i := O.IndexOf(l.entries, c.id);
        var e := l.entries[i];
        ShareBelowSum(l.entries, i, e.walletName, e.status);
      }
    }
  }

  // ----- the daily limit

  /** What a call adds to the submitted bucket out of the expired one. */
  function Resubmitted(l: Ledger, c: Call, w: string): nat {
    var t := TransferOf(l, c);
    if t.Some? && t.value.walletName == w && t.value.from == Expired then t.value.amount else 0
  }

  function RunResubmitted(l: Ledger, today: string, calls: seq<Call>, w: string): nat
    decreases |calls|
  {
    if calls == [] then 0
    else Resubmitted(l, calls[0], w) + RunResubmitted(After(l, today, calls[0]), today, calls[1..], w)
  }

  /** How far the locked amount may lie above the daily limit. */
  ghost predicate WithinLimit(l: Ledger, today: string, w: string, limit: nat, excess: nat) {
    && w in l.policies
    && l.policies[w].dailyLimit == Some(limit)
    && l.policies[w].Locked(today) <= limit + excess
  }

  /** A move that its source covers changes the locked amount only when it crosses between locked and released buckets. */
  lemma LockedAfterMove(p: Policy, today: string, t: Transfer)
    requires t.amount <= p.Held(today, t.from) && t.from != t.to
    ensures
      var delta := (if t.to in {Failed, Expired} then 0 else t.amount) - (if t.from in {Failed, Expired} then 0 else t.amount);
      Move(p, today, t.amount, t.from, t.to).Locked(today) == p.Locked(today) + delta
  {
    MoveHolds(p, today, t.amount, t.from, t.to, Reserved);
    MoveHolds(p, today, t.amount, t.from, t.to, Submitted);
    MoveHolds(p, today, t.amount, t.from, t.to, Confirmed);
  }

  lemma MoveKeepsLimit(p: Policy, today: string, t: Transfer)
    ensures Move(p, today, t.amount, t.from, t.to).dailyLimit == p.dailyLimit
  {
    hide LowValue.Policy.Held;
    assert forall q: Policy, b, n :: q.WithField(b, n).dailyLimit == q.dailyLimit;
  }

  lemma CallWithinLimit(l: Ledger, today: string, c: Call, verdict: string -> bool, w: string, limit: nat, excess: nat)
    requires Inv(l, today, verdict) && Ordinary(l, c, verdict)
    requires WithinLimit(l, today, w, limit, excess)
    ensures WithinLimit(After(l, today, c), today, w, limit, excess + Resubmitted(l, c, w))
  {
    if c.Build? && c.lowValue && !LowValueSigns(l, today, c.walletName, c.amount) {
      return;
    }
    CallIsItsTransfer(l, today, c);
    NeverSaturates(l, today, c, verdict);
    var policies := BeforeMove(l, today, c);
    if c.Build? && c.lowValue {
      ReserveHolds(l.policies[c.walletName], today, c.amount);
    }
    assert policies[w].dailyLimit == Some(limit) && policies[w].Locked(today) <= limit + excess;
    var t := TransferOf(l, c);
    if t.Some? && t.value.walletName == w {
      LockedAfterMove(policies[w], today, t.value);
      MoveKeepsLimit(policies[w], today, t.value);
    }
  }

  /** Over every ordinary run, the locked amount exceeds the limit by at most the expired amounts that were resubmitted. */
  lemma {:induction false} RunWithinLimit(
      l: Ledger, today: string, calls: seq<Call>, verdict: string -> bool, w: string, limit: nat, excess: nat)
    requires Inv(l, today, verdict) && OrdinaryRun(l, today, calls, verdict)
    requires WithinLimit(l, today, w, limit, excess)
    ensures WithinLimit(Run(l, today, calls), today, w, limit, excess + RunResubmitted(l, today, calls, w))
    decreases |calls|
  {
    if calls != [] {
      CallKeepsInv(l, today, calls[0], verdict);
      CallWithinLimit(l, today, calls[0], verdict, w, limit, excess);
      RunWithinLimit(After(l, today, calls[0]), today, calls[1..], verdict, w, limit, excess + Resubmitted(l, calls[0], w));
    }
  }

  /** A submission that takes a reserved amount out of the expired bucket, as a caller can see beforehand. */
  predicate Resubmits(l: Ledger, c: Call) {
    && c.Submit? && c.allowExpired && O.Has(l.entries, c.id)
    && O.Get(l.entries, c.id).status.Expired? && O.Get(l.entries, c.id).lowValueReserved
  }

  predicate NoResubmission(l: Ledger, today: string, calls: seq<Call>)
    decreases |calls|
  {
    calls != [] ==> !Resubmits(l, calls[0]) && NoResubmission(After(l, today, calls[0]), today, calls[1..])
  }

  lemma {:induction false} NothingResubmitted(l: Ledger, today: string, calls: seq<Call>, w: string)
    requires NoResubmission(l, today, calls)
    ensures RunResubmitted(l, today, calls, w) == 0
    decreases |calls|
  {
    hide After;
    if calls != [] {
      NothingResubmitted(After(l, today, calls[0]), today, calls[1..], w);
    }
  }

  /** Without resubmission of reserved amounts that expired, the limit is never exceeded. */
  lemma RunRespectsLimit(l: Ledger, today: string, calls: seq<Call>, verdict: string -> bool, w: string, limit: nat)
    requires Inv(l, today, verdict) && OrdinaryRun(l, today, calls, verdict) && NoResubmission(l, today, calls)
    requires WithinLimit(l, today, w, limit, 0)
    ensures WithinLimit(Run(l, today, calls), today, w, limit, 0)
  {
    NothingResubmitted(l, today, calls, w);
    RunWithinLimit(l, today, calls, verdict, w, limit, 0);
  }

  // ----- exactly when a submission or a settlement keeps ledger and outbox in step

  /** The guard under which an accepted submission of a reserved entry keeps the step. */
  predicate SubmitSafe(s: O.Status, allowExpired: bool, txHash: string) {
    match s
    case Submitted => true
    case Signed => txHash != ""
    case Expired => allowExpired ==> txHash != ""
    case Confirmed => txHash == ""
    case Failed => txHash == ""
  }

  lemma BrokenBySum(l: Ledger, l': Ledger, today: string, w: string, s: O.Status)
    requires w in l'.policies && l'.policies[w].Held(today, BucketOf(s)) != Sum(l'.entries, w, s)
    ensures !InStep(l', today)
  {
  }

  /** A broadcast accepted with an empty hash moves the buckets but not the status; a settled entry does the reverse. */
  lemma SubmitKeepsStepIff(l: Ledger, today: string, id: string, allowExpired: bool, txHash: string)
    requires InStep(l, today) && O.Has(l.entries, id)
    requires
      var e := O.Get(l.entries, id);
      e.lowValueReserved && e.amount > 0 && e.walletName in l.policies
    ensures
      InStep(After(l, today, Submit(id, allowExpired, Accepted(txHash))), today) <==>
      SubmitSafe(O.Get(l.entries, id).status, allowExpired, txHash)
  {
    var i := O.IndexOf(l.entries, id);
    var e := l.entries[i];
    var c := Submit(id, allowExpired, Accepted(txHash));
    var l' := After(l, today, c);
    var e' := Sent(e, c.broadcast);
    if !(e.status.Expired? && !allowExpired) {
      SumUpdate(l.entries, i, e', e.walletName, e.status);
      ShareBelowSum(l.entries, i, e.walletName, e.status);
      var t := SubmitTransfer(e, allowExpired, c.broadcast);
      if t.Some? {
        MoveHolds(l.policies[e.walletName], today, e.amount, t.value.from, t.value.to, BucketOf(e.status));
        if txHash != "" {
          MoveKeepsStep(l, today, id, e');
        } else {
          BrokenBySum(l, l', today, e.walletName, e.status);
        }
      } else if e'.status == e.status {
        QuietKeepsStep(l, today, id, e');
      } else {
        BrokenBySum(l, l', today, e.walletName, e.status);
      }
    }
  }

  predicate SettleSafe(s: O.Status, ok: bool) {
    s.Submitted? || (if ok then s.Confirmed? else s.Failed?)
  }

  /** A settlement with a known receipt keeps the step only from `submitted`, or when it repeats the status it finds. */
  lemma SettleKeepsStepIff(l: Ledger, today: string, id: string, txHash: string, ok: bool)
    requires InStep(l, today) && O.Has(l.entries, id) && txHash != ""
    requires
      var e := O.Get(l.entries, id);
      e.lowValueReserved && e.amount > 0 && e.walletName in l.policies
    ensures
      InStep(After(l, today, Settle(id, Some(txHash), Some(ok))), today) <==>
      SettleSafe(O.Get(l.entries, id).status, ok)
  {
    var i := O.IndexOf(l.entries, id);
    var e := l.entries[i];
    var l' := After(l, today, Settle(id, Some(txHash), Some(ok)));
    var e' := O.Restated(e, if ok then O.Confirmed else O.Failed, Some(txHash));
    SumUpdate(l.entries, i, e', e.walletName, e.status);
    if e.status.Submitted? {
      MoveKeepsStep(l, today, id, e');
    } else if e'.status == e.status {
      QuietKeepsStep(l, today, id, e');
    } else {
      BrokenBySum(l, l', today, e.walletName, e.status);
    }
  }

  // ----- what a call does to the outbox, reserved or not

  /** An entry after an attempt: submitted under the echoed hash when there is one, as it was otherwise. */
  predicate AttemptedOnce(e: O.Entry, e': O.Entry, b: Broadcast) {
    && e'.attempts == (match b
                       case NotSent => e.attempts
                       case Refused => [O.Attempt(false, None)] + e.attempts
                       case Accepted(hash) => [O.Attempt(true, Some(hash))] + e.attempts)
    && (if b.Accepted? && b.txHash != "" then e'.status == O.Submitted && e'.txHash == Some(b.txHash)
        else e'.status == e.status && e'.txHash == e.txHash)
    && e'.(status := e.status, txHash := e.txHash, attempts := e.attempts) == e
  }

  /** A submission attempts the one entry, unless it has expired and may not be used any more, and changes no other. */
  lemma SubmitEntries(l: Ledger, today: string, id: string, allowExpired: bool, b: Broadcast)
    ensures
      var l' := After(l, today, Submit(id, allowExpired, b));
      && |l'.entries| == |l.entries|
      && (forall k :: 0 <= k < |l.entries| && k != O.IndexOf(l.entries, id) ==> l'.entries[k] == l.entries[k])
      && (O.Has(l.entries, id) ==>
            var e, e' := O.Get(l.entries, id), l'.entries[O.IndexOf(l.entries, id)];
            && (if e.status == O.Expired && !allowExpired then l' == l else AttemptedOnce(e, e', b))
            && (!e.lowValueReserved ==> l'.policies == l.policies))
      && (!O.Has(l.entries, id) ==> l' == l)
  {
  }

  /** A settlement with a hash and a receipt states the verdict and the hash in the one entry, and changes no other. */
  lemma SettleEntries(l: Ledger, today: string, id: string, txHash: Option<string>, receipt: Option<bool>)
    ensures
      var l' := After(l, today, Settle(id, txHash, receipt));
      && |l'.entries| == |l.entries|
      && (forall k :: 0 <= k < |l.entries| && k != O.IndexOf(l.entries, id) ==> l'.entries[k] == l.entries[k])
      && (O.Has(l.entries, id) ==>
            var e, e' := O.Get(l.entries, id), l'.entries[O.IndexOf(l.entries, id)];
            var hash := if txHash.Some? then txHash.value else if e.txHash.Some? then e.txHash.value else "";
            && (if hash == "" || receipt.None? then l' == l
                else e' == e.(status := if receipt.value then O.Confirmed else O.Failed, txHash := Some(hash)))
            && (!e.lowValueReserved ==> l'.policies == l.policies))
      && (!O.Has(l.entries, id) ==> l' == l)
  {
  }

  /** A release states in the one entry that its reserved payload has failed or expired, and changes no other. */
  lemma ReleaseEntries(l: Ledger, today: string, id: string, toFailed: bool)
    ensures
      var l' := After(l, today, Release(id, toFailed));
      && |l'.entries| == |l.entries|
      && (forall k :: 0 <= k < |l.entries| && k != O.IndexOf(l.entries, id) ==> l'.entries[k] == l.entries[k])
      && (O.Has(l.entries, id) ==>
            var e, e' := O.Get(l.entries, id), l'.entries[O.IndexOf(l.entries, id)];
            if e.lowValueReserved && e.status == O.Signed then e' == e.(status := if toFailed then O.Failed else O.Expired)
            else l' == l)
      && (!O.Has(l.entries, id) ==> l' == l)
  {
  }

  /** A build that is not refused puts the new entry, attempted once, before the others. */
  lemma BuildEntries(l: Ledger, today: string, c: Call)
    requires c.Build?
    ensures
      var l' := After(l, today, c);
      if c.lowValue && !LowValueSigns(l, today, c.walletName, c.amount) then l' == l
      else
        && |l'.entries| == |l.entries| + 1 && l'.entries[1..] == l.entries
        && AttemptedOnce(O.Entry(c.id, O.Signed, c.walletName, c.amount, c.lowValue, c.expiresAt, None, []), l'.entries[0],
                         if c.broadcast == Accepted("") then Refused else c.broadcast)
        && (!c.lowValue ==> l'.policies == l.policies)
  {
  }

  // ----- expiring stale reservations

  /** The entries after the stale ones among the first `n` have expired. */
  function Lapsed(entries: seq<O.Entry>, n: nat, now: int): (r: seq<O.Entry>)
    ensures |r| == |entries|
    ensures forall k :: 0 <= k < |entries| ==>
      var e := entries[k];
      r[k] == if k < n && e.status == O.Signed && e.lowValueReserved && e.expiresAt <= now then e.(status := O.Expired) else e
  {
    seq(|entries|, k requires 0 <= k < |entries| =>
      var e := entries[k];
      if k < n && e.status == O.Signed && e.lowValueReserved && e.expiresAt <= now then e.(status := O.Expired) else e)
  }

  /** What the stale ones among these entries had reserved of a wallet. */
  function LapsedAmount(entries: seq<O.Entry>, now: int, w: string): nat {
    if entries == [] then 0
    else
      var e := entries[0];
      (if e.walletName == w && e.status == O.Signed && e.lowValueReserved && e.expiresAt <= now then e.amount else 0)
      + LapsedAmount(entries[1..], now, w)
  }

  lemma UniqueIndex(entries: seq<O.Entry>, i: nat)
    requires O.UniqueIds(entries) && i < |entries|
    ensures O.IndexOf(entries, entries[i].id) == i
  {
  }

  lemma LapsedNext(entries: seq<O.Entry>, i: nat, now: int)
    requires i < |entries|
    ensures Lapsed(entries, i + 1, now) ==
            if IsStale(entries[i], now) then Lapsed(entries, i, now)[i := entries[i].(status := O.Expired)] else Lapsed(entries, i, now)
  {
  }

  /** Releasing the stale reservations one after the other expires exactly those entries and keeps buckets in step. */
  lemma {:induction false} ReleasingStale(l: Ledger, today: string, n: nat, now: int)
    requires O.UniqueIds(l.entries) && n <= |l.entries|
    ensures
      var l' := Run(l, today, StaleReleases(l.entries[..n], now));
      && l'.entries == Lapsed(l.entries, n, now) && l'.policies.Keys == l.policies.Keys
      && (InStep(l, today) ==> InStep(l', today))
  {
    hide InStep, After;
    if n == 0 {
      assert StaleReleases(l.entries[..0], now) == [];
      assert Lapsed(l.entries, 0, now) == l.entries;
    } else {
      var i := n - 1;
      ReleasingStale(l, today, i, now);
      StaleReleasesSnoc(l.entries, now, i);
      LapsedNext(l.entries, i, now);
      var before := Run(l, today, StaleReleases(l.entries[..i], now));
      if IsStale(l.entries[i], now) {
        var c := Release(l.entries[i].id, false);
        RunSnoc(l, today, StaleReleases(l.entries[..i], now), c);
        assert before.entries[i] == l.entries[i];
        assert O.UniqueIds(before.entries);
        UniqueIndex(before.entries, i);
        ReleaseLapses(before, today, i);
      } else {
        assert StaleReleases(l.entries[..i], now) + [] == StaleReleases(l.entries[..i], now);
      }
    }
  }

  lemma ReleaseLapses(l: Ledger, today: string, i: nat)
    requires i < |l.entries| && O.IndexOf(l.entries, l.entries[i].id) == i
    requires l.entries[i].status == O.Signed && l.entries[i].lowValueReserved
    ensures
      var l' := After(l, today, Release(l.entries[i].id, false));
      && l'.entries == l.entries[i := l.entries[i].(status := O.Expired)] && l'.policies.Keys == l.policies.Keys
      && (InStep(l, today) ==> InStep(l', today))
  {
    hide InStep, LowValue.Move;
    if InStep(l, today) {
      MoveKeepsStep(l, today, l.entries[i].id, l.entries[i].(status := O.Expired));
    }
  }

  lemma {:induction false} LapsedSums(entries: seq<O.Entry>, n: nat, now: int, w: string)
    requires n <= |entries|
    ensures Sum(Lapsed(entries, n, now), w, O.Signed) + LapsedAmount(entries[..n], now, w) == Sum(entries, w, O.Signed)
    ensures Sum(Lapsed(entries, n, now), w, O.Expired) == Sum(entries, w, O.Expired) + LapsedAmount(entries[..n], now, w)
    ensures forall s: O.Status :: s != O.Signed && s != O.Expired ==> Sum(Lapsed(entries, n, now), w, s) == Sum(entries, w, s)
    decreases n
  {
    if n == 0 {
      assert Lapsed(entries, 0, now) == entries;
    } else {
      var rest := entries[1..];
      LapsedSums(rest, n - 1, now, w);
      assert Lapsed(entries, n, now)[1..] == Lapsed(rest, n - 1, now);
      assert entries[..n][1..] == rest[..n - 1];
    }
  }

  /** Expiring stale reservations moves exactly their amounts from the reserved bucket of their wallet to the expired one. */
  lemma LapsedHolds(l: Ledger, today: string, n: nat, now: int, w: string)
    requires O.UniqueIds(l.entries) && n <= |l.entries| && InStep(l, today) && w in l.policies
    ensures
      var l' := Run(l, today, StaleReleases(l.entries[..n], now));
      var amount := LapsedAmount(l.entries[..n], now, w);
      && w in l'.policies
      && l'.policies[w].Held(today, Reserved) == l.policies[w].Held(today, Reserved) - amount
      && l'.policies[w].Held(today, LowValue.Expired) == l.policies[w].Held(today, LowValue.Expired) + amount
      && (forall b :: b in {Submitted, Confirmed, LowValue.Failed} ==> l'.policies[w].Held(today, b) == l.policies[w].Held(today, b))
  {
    ReleasingStale(l, today, n, now);
    LapsedSums(l.entries, n, now, w);
    var l' := Run(l, today, StaleReleases(l.entries[..n], now));
    hide Run, StaleReleases, Sum, Policy.Held;
    forall s: O.Status ensures l'.policies[w].Held(today, BucketOf(s)) == Sum(l'.entries, w, s) {}
    assert BucketOf(O.Signed) == Reserved && BucketOf(O.Expired) == LowValue.Expired;
    assert BucketOf(O.Submitted) == Submitted && BucketOf(O.Confirmed) == Confirmed && BucketOf(O.Failed) == LowValue.Failed;
  }

  // ----- forgetting an entry

  /** Forgetting removes the entry and leaves the buckets as they are. */
  function AfterForget(l: Ledger, id: string): Ledger {
    l.(entries := O.Without(l.entries, id))
  }

  lemma {:induction false} SumWithout(entries: seq<O.Entry>, id: string, w: string, s: O.Status)
    requires O.UniqueIds(entries) && O.Has(entries, id)
    ensures Sum(O.Without(entries, id), w, s) + Share(O.Get(entries, id), w, s) == Sum(entries, w, s)
  {
    var rest := entries[1..];
    if entries[0].id == id {
      assert forall k :: 0 <= k < |rest| ==> rest[k] == entries[k + 1] && rest[k].id != id;
      O.WithoutAbsent(rest, id);
      assert [] + rest == rest;
    } else {
      assert O.Get(entries, id) == O.Get(rest, id);
      SumWithout(rest, id, w, s);
      assert ([entries[0]] + O.Without(rest, id))[1..] == O.Without(rest, id);
    }
  }

  /** Forgetting keeps the step exactly when the entry weighs nothing in any bucket. */
  lemma ForgetKeepsStepIff(l: Ledger, today: string, id: string)
    requires InStep(l, today) && O.UniqueIds(l.entries) && O.Has(l.entries, id)
    ensures
      var e := O.Get(l.entries, id);
      InStep(AfterForget(l, id), today) <==> !e.lowValueReserved || e.amount == 0 || e.walletName !in l.policies
  {
    var e := O.Get(l.entries, id);
    forall w, s ensures Sum(O.Without(l.entries, id), w, s) + Share(e, w, s) == Sum(l.entries, w, s) {
      SumWithout(l.entries, id, w, s);
    }
    if e.walletName in l.policies {
      assert Share(e, e.walletName, e.status) == if e.lowValueReserved then e.amount else 0;
    }
  }

  // ----- runs from an empty outbox that lose the step

  /** A fresh policy of one wallet, and nothing in the outbox. */
  function Fresh(walletName: string, today: string): Ledger {
    Ledger(map[walletName := Policy(true, 5, Some(10), Some(today), Some(0), Some(0), Some(0), Some(0), Some(0), Some(0))], [])
  }

  function BuildUnsent(walletName: string): Call {
    Build("tx", walletName, 1, 0, true, NotSent)
  }

  lemma AfterBuildUnsent(walletName: string, today: string)
    ensures var l := After(Fresh(walletName, today), today, BuildUnsent(walletName));
            && InStep(l, today) && O.UniqueIds(l.entries) && walletName in l.policies
            && l.entries == [NewEntry(BuildUnsent(walletName))] && O.Has(l.entries, "tx")
            && O.Get(l.entries, "tx") == NewEntry(BuildUnsent(walletName))
  {
    hide LowValue.Move;
    var l, c := Fresh(walletName, today), BuildUnsent(walletName);
    assert InStep(l, today);
    PrependKeepsStep(l, today, NewEntry(c));
    assert [NewEntry(c)] + [] == [NewEntry(c)];
  }

  /** A build whose broadcast the node accepts, and the settlement that finds it confirmed. */
  function BuildSent(walletName: string): Call {
    Build("tx", walletName, 1, 0, true, Accepted("0x"))
  }

  function Confirmation(): Call {
    Settle("tx", None, Some(true))
  }

  lemma AfterConfirmation(walletName: string, today: string)
    ensures var l := Run(Fresh(walletName, today), today, [BuildSent(walletName), Confirmation()]);
            && InStep(l, today) && walletName in l.policies && O.Has(l.entries, "tx")
            && O.Get(l.entries, "tx") == O.Restated(Sent(NewEntry(BuildSent(walletName)), Accepted("0x")), O.Confirmed, Some("0x"))
  {
    var l, build, verdict := Fresh(walletName, today), BuildSent(walletName), (hash: string) => true;
    assert InStep(l, today) && Inv(l, today, verdict);
    RunTwo(l, today, build, Confirmation());
    BuildKeepsInv(l, today, build, verdict);
    var built := After(l, today, build);
    assert built.entries == [Sent(NewEntry(build), Accepted("0x"))];
    SettleKeepsInv(built, today, Confirmation(), verdict);
  }

  /**
   A payload that was built but not sent: submitting it with an empty hash, settling it with a hash of the caller's, or
   forgetting it each leaves ledger and outbox out of step; so does retrying one that was sent and confirmed.
   */
  lemma StepIsLost(walletName: string, today: string)
    ensures var l := Fresh(walletName, today);
            && InStep(l, today)
            && !InStep(Run(l, today, [BuildUnsent(walletName), Submit("tx", false, Accepted(""))]), today)
            && !InStep(Run(l, today, [BuildUnsent(walletName), Settle("tx", Some("0x"), Some(true))]), today)
            && !InStep(AfterForget(Run(l, today, [BuildUnsent(walletName)]), "tx"), today)
            && !InStep(Run(l, today, [BuildSent(walletName), Confirmation(), Submit("tx", false, Accepted("0x"))]), today)
  {
    UnsentStepIsLost(walletName, today);
    AfterConfirmation(walletName, today);
    hide After, Run, InStep;
    var l, first, retry := Fresh(walletName, today), [BuildSent(walletName), Confirmation()], Submit("tx", false, Accepted("0x"));
    RunSnoc(l, today, first, retry);
    assert first + [retry] == [BuildSent(walletName), Confirmation(), retry];
    SubmitKeepsStepIff(Run(l, today, first), today, "tx", false, "0x");
  }

  lemma UnsentStepIsLost(walletName: string, today: string)
    ensures var l := Fresh(walletName, today);
            && InStep(l, today)
            && !InStep(Run(l, today, [BuildUnsent(walletName), Submit("tx", false, Accepted(""))]), today)
            && !InStep(Run(l, today, [BuildUnsent(walletName), Settle("tx", Some("0x"), Some(true))]), today)
            && !InStep(AfterForget(Run(l, today, [BuildUnsent(walletName)]), "tx"), today)
  {
    var l, build := Fresh(walletName, today), BuildUnsent(walletName);
    AfterBuildUnsent(walletName, today);
    hide After;
    var built := After(l, today, build);
    SubmitKeepsStepIff(built, today, "tx", false, "");
    SettleKeepsStepIff(built, today, "tx", "0x", true);
    ForgetKeepsStepIff(built, today, "tx");
    RunTwo(l, today, build, Submit("tx", false, Accepted("")));
    RunTwo(l, today, build, Settle("tx", Some("0x"), Some(true)));
  }

  lemma RunTwo(l: Ledger, today: string, c: Call, d: Call)
    ensures Run(l, today, [c]) == After(l, today, c)
    ensures Run(l, today, [c, d]) == After(After(l, today, c), today, d)
  {
    hide After;
    assert [c][1..] == [] && [c] == [] + [c] && [c, d] == [c] + [d];
    RunSnoc(l, today, [c], d);
  }
}
