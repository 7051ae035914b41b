/** The wallet store and the outbox as the handlers rewrite them, one store write at a time. */
module LedgerDesk {
  import opened Options
  import opened LowValue
  import opened LowValueRecord
  import opened Accounts = Ledger
  import O = Outbox

  /** Each of the first `n` entries that is signed, reserved and past its expiry is now expired; the others are as before. */
  predicate Expires(before: seq<O.Entry>, after: seq<O.Entry>, n: nat, now: int) {
    && |after| == |before|
    && forall k :: 0 <= k < |before| ==>
         var e := before[k];
         if k < n && e.status == O.Signed && e.lowValueReserved && e.expiresAt <= now then after[k] == e.(status := O.Expired)
         else after[k] == e
  }

  /** The amount of each wallet has moved from its reserved bucket to its expired one, and nothing else has. */
  ghost predicate Moves(before: Ledger, after: Ledger, today: string, amount: string -> nat) {
    && after.policies.Keys == before.policies.Keys
    && forall w :: w in before.policies ==>
         var p, p' := before.policies[w], after.policies[w];
         && p'.Held(today, Reserved) == p.Held(today, Reserved) - amount(w)
         && p'.Held(today, LowValue.Expired) == p.Held(today, LowValue.Expired) + amount(w)
         && p'.Held(today, Submitted) == p.Held(today, Submitted) && p'.Held(today, Confirmed) == p.Held(today, Confirmed)
         && p'.Held(today, LowValue.Failed) == p.Held(today, LowValue.Failed)
  }

  lemma StaleAreExpired(l: Ledger, today: string, n: nat, now: int)
    requires O.UniqueIds(l.entries) && n <= |l.entries|
    ensures var l' := Run(l, today, StaleReleases(l.entries[..n], now));
            && Expires(l.entries, l'.entries, n, now)
            && (InStep(l, today) ==> InStep(l', today) && Moves(l, l', today, w => LapsedAmount(l.entries[..n], now, w)))
  {
    hide InStep, Run, StaleReleases, LapsedAmount, LowValue.Policy.Held, O.UniqueIds;
    ReleasingStale(l, today, n, now);
    if InStep(l, today) {
      forall w | w in l.policies {
        LapsedHolds(l, today, n, now, w);
      }
    }
  }

  class Desk {
    var records: map<string, Record>
    var entries: seq<O.Entry>

    ghost predicate Valid()
      reads this
    {
      forall w :: w in records ==> WellFormed(records[w])
    }

    /** The state of the ledger that the two stores denote. */
    ghost function State(): Ledger
      reads this
    {
      Ledger(map w | w in records :: Denote(records[w]), entries)
    }

    constructor (records: map<string, Record>)
      requires forall w :: w in records ==> WellFormed(records[w])
      ensures Valid() && this.records == records && entries == []
    {
      this.records := records;
      this.entries := [];
    }

    // ----- store operations

    method AddOutboxEntry(e: O.Entry)
      modifies this`entries
      ensures entries == [e] + old(entries)
    {
      entries := [e] + entries;
    }

    /** Fails, changing nothing, when the id is unknown. */
    method RecordOutboxAttempt(id: string, attempt: O.Attempt) returns (found: bool)
      modifies this`entries
      ensures found == old(O.Has(entries, id))
      ensures entries == if found then old(O.Put(entries, id, O.Attempted(O.Get(entries, id), attempt))) else old(entries)
    {
      var index := O.IndexOf(entries, id);
      if index == |entries| {
        return false;
      }
      var entry := entries[index];
      entry := entry.(attempts := [attempt] + entry.attempts);
      if attempt.ok && attempt.txHash.Some? && attempt.txHash.value != "" {
        entry := entry.(status := O.Submitted);
        entry := entry.(txHash := attempt.txHash);
      }
      entries := entries[index := entry];
      return true;
    }

    method UpdateOutboxStatus(id: string, status: O.Status, txHash: Option<string>) returns (found: bool)
      modifies this`entries
      ensures found == old(O.Has(entries, id))
      ensures entries == if found then old(O.Put(entries, id, O.Restated(O.Get(entries, id), status, txHash))) else old(entries)
    {
      var index := O.IndexOf(entries, id);
      if index == |entries| {
        return false;
      }
      var entry := entries[index];
      entry := entry.(status := status);
      if txHash.Some? {
        entry := entry.(txHash := txHash);
      }
      entries := entries[index := entry];
      return true;
    }

    method RecordLowValueSpend(walletName: string, today: string, n: nat)
      requires Valid()
      modifies this`records
      ensures Valid()
      ensures State() ==
        if walletName in old(records)
          then old(State().(policies := State().policies[walletName := Reserve(State().policies[walletName], today, n)]))
        else old(State())
    {
      if walletName !in records {
        return;
      }
      var record := new PolicyRecord.Load(records[walletName]);
      record.RecordSpend(today, n);
      StorePolicy(walletName, record.Snapshot());
    }

    method StorePolicy(walletName: string, r: Record)
      requires Valid() && WellFormed(r) && walletName in records
      modifies this`records
      ensures Valid() && State() == old(State().(policies := State().policies[walletName := Denote(r)]))
    {
      hide WellFormed, Denote;
      records := records[walletName := r];
      assert State().policies == old(State()).policies[walletName := Denote(r)];
    }

    method MoveLowValueAccounting(walletName: string, today: string, n: nat, from: Bucket, to: Bucket)
      requires Valid()
      modifies this`records
      ensures Valid()
      ensures State() == old(State().(policies := Shift(State().policies, today, Transfer(walletName, n, from, to))))
    {
      if walletName !in records {
        return;
      }
      var record := new PolicyRecord.Load(records[walletName]);
      record.MoveBetween(today, n, from, to);
      StorePolicy(walletName, record.Snapshot());
    }

    // ----- handlers

    /** Whether the hot key signs: a wallet with an enabled policy that admits the amount. */
    method LowValueSigner(today: string, walletName: string, amount: nat) returns (signs: bool)
      requires Valid()
      ensures signs <==> LowValueSigns(State(), today, walletName, amount)
      ensures signs <==> walletName in records && records[walletName].enabled && SignerAdmits(Denote(records[walletName]), today, amount)
    {
      hide WellFormed;
      if walletName !in records || !records[walletName].enabled {
        return false;
      }
      var record := new PolicyRecord.Load(records[walletName]);
      var verdict := record.AssertLowValueAllowed(today, amount);
      assert State().policies[walletName] == Denote(record.Snapshot());
      signs := verdict.Admits?;
    }

    /** `submitPayload` with the expected hash: an echoed hash that does not match throws. */
    method BuildTransfer(today: string, id: string, walletName: string, amount: nat, expiresAt: int, lowValue: bool, broadcast: Broadcast)
      returns (built: bool)
      requires Valid()
      modifies this
      ensures Valid()
      ensures State() == After(old(State()), today, Build(id, walletName, amount, expiresAt, lowValue, broadcast))
      ensures built <==> !lowValue || old(LowValueSigns(State(), today, walletName, amount))
    {
      hide WellFormed, LowValue.Move, LowValue.Reserve;
      if lowValue {
        var signs := LowValueSigner(today, walletName, amount);
        if !signs {
          return false;
        }
        RecordLowValueSpend(walletName, today, amount);
      }
      var outboxEntry := O.Entry(id, O.Signed, walletName, amount, lowValue, expiresAt, None, []);
      AddOutboxEntry(outboxEntry);
      ghost var listed := entries;
      assert O.IndexOf(listed, id) == 0 && O.Get(listed, id) == outboxEntry;
      assert forall e :: O.Put(listed, id, e) == [e] + old(entries);
      if broadcast.Accepted? && broadcast.txHash != "" {
        var _ := RecordOutboxAttempt(id, O.Attempt(true, Some(broadcast.txHash)));
        if outboxEntry.lowValueReserved && outboxEntry.status == O.Signed {
          MoveLowValueAccounting(walletName, today, amount, Reserved, Submitted);
        }
      } else if !broadcast.NotSent? {
        var _ := RecordOutboxAttempt(id, O.Attempt(false, None));
      }
      assert entries == [Sent(outboxEntry, Checked(broadcast))] + old(entries);
      return true;
    }

    /** The retry of an outbox entry, and the submission of its payload by outbox id. */
    method SubmitPayload(today: string, id: string, allowExpired: bool, broadcast: Broadcast)
      requires Valid()
      modifies this
      ensures Valid()
      ensures State() == After(old(State()), today, Submit(id, allowExpired, broadcast))
    {
      hide Denote, WellFormed, LowValue.Move;
      if !O.Has(entries, id) {
        return;
      }
      var entry := O.Get(entries, id);
      if entry.status == O.Expired && !allowExpired {
        return;
      }
      if broadcast.Accepted? {
        var _ := RecordOutboxAttempt(id, O.Attempt(true, Some(broadcast.txHash)));
        if entry.lowValueReserved {
          if entry.status == O.Signed {
            MoveLowValueAccounting(entry.walletName, today, entry.amount, Reserved, Submitted);
          } else if entry.status == O.Expired && allowExpired {
            MoveLowValueAccounting(entry.walletName, today, entry.amount, Expired, Submitted);
          }
        }
      } else if broadcast.Refused? {
        var _ := RecordOutboxAttempt(id, O.Attempt(false, None));
      }
    }

    method ReleaseLowValueReservation(today: string, id: string, toFailed: bool) returns (released: bool)
      requires Valid()
      modifies this
      ensures Valid()
      ensures State() == After(old(State()), today, Release(id, toFailed))
      ensures released <==> old(O.Has(entries, id) && O.Get(entries, id).lowValueReserved && O.Get(entries, id).status == O.Signed)
    {
      hide Denote, WellFormed, LowValue.Move;
      if !O.Has(entries, id) {
        return false;
      }
      var entry := O.Get(entries, id);
      if !entry.lowValueReserved || entry.status != O.Signed {
        return false;
      }
      MoveLowValueAccounting(entry.walletName, today, entry.amount, Reserved, if toFailed then Failed else Expired);
      var _ := UpdateOutboxStatus(id, if toFailed then O.Failed else O.Expired, None);
      return true;
    }

    /** Releases the stale reservations among the first `limit` entries, as they were listed at the start. */
    method ExpireStale(today: string, now: int, limit: nat)
      requires Valid()
      modifies this
      ensures Valid()
      ensures
        var n := if limit < |old(entries)| then limit else |old(entries)|;
        var listed := old(entries)[..n];
        && State() == Run(old(State()), today, StaleReleases(listed, now))
        && (O.UniqueIds(old(entries)) ==> Expires(old(entries), entries, n, now))
        && (O.UniqueIds(old(entries)) && InStep(old(State()), today) ==>
              InStep(State(), today) && Moves(old(State()), State(), today, w => LapsedAmount(listed, now, w)))
    {
      hide After, InStep, O.UniqueIds;
      var listed := entries[..if limit < |entries| then limit else |entries|];
      for i := 0 to |listed|
        invariant Valid()
        invariant State() == Run(old(State()), today, StaleReleases(listed[..i], now))
      {
        StaleReleasesSnoc(listed, now, i);
        assert StaleReleases(listed[..i], now) + [] == StaleReleases(listed[..i], now);
        if listed[i].status == O.Signed && listed[i].lowValueReserved && listed[i].expiresAt <= now {
          RunSnoc(old(State()), today, StaleReleases(listed[..i], now), Release(listed[i].id, false));
          var _ := ReleaseLowValueReservation(today, listed[i].id, false);
        }
      }
      assert listed[..|listed|] == listed;
      if O.UniqueIds(old(entries)) {
        StaleAreExpired(old(State()), today, |listed|, now);
      }
    }

    method TxStatusSummary(today: string, id: string, txHash: Option<string>, receipt: Option<bool>)
      requires Valid()
      modifies this
      ensures Valid()
      ensures State() == After(old(State()), today, Settle(id, txHash, receipt))
    {
      hide Denote, WellFormed, LowValue.Move;
      if !O.Has(entries, id) {
        return;
      }
      var outbox := O.Get(entries, id);
      var hash := if txHash.Some? then txHash else outbox.txHash;
      if hash.None? || hash.value == "" {
        return;
      }
      if receipt.Some? {
        var derived := if receipt.value then O.Confirmed else O.Failed;
        var _ := UpdateOutboxStatus(id, derived, hash);
        if outbox.lowValueReserved && outbox.status == O.Submitted {
          MoveLowValueAccounting(outbox.walletName, today, outbox.amount, Submitted, if receipt.value then Confirmed else Failed);
        }
      }
    }

    /** Fails, changing nothing, when there is nothing to remove. */
    method ForgetOutboxEntry(id: string) returns (removed: bool)
      requires Valid()
      modifies this`entries
      ensures Valid() && removed == old(O.Has(entries, id))
      ensures State() == if removed then AfterForget(old(State()), id) else old(State())
    {
      if !O.Has(entries, id) {
        return false;
      }
      entries := O.Without(entries, id);
      return true;
    }

    /** A day of handler calls is a run of the ledger, so an ordinary one keeps the two stores in step throughout. */
    method ServeDay(today: string, calls: seq<Call>, ghost verdict: string -> bool)
      requires Valid() && Inv(State(), today, verdict) && OrdinaryRun(State(), today, calls, verdict)
      modifies this
      ensures Valid() && State() == Run(old(State()), today, calls) && Inv(State(), today, verdict)
    {
      hide After, Inv, Ordinary, Valid, State;
      ghost var start := State();
      for i := 0 to |calls|
        invariant Valid() && State() == Run(start, today, calls[..i])
      {
        RunSnoc(start, today, calls[..i], calls[i]);
        assert calls[..i + 1] == calls[..i] + [calls[i]];
        match calls[i] {
          case Build(id, walletName, amount, expiresAt, lowValue, broadcast) =>
            var _ := BuildTransfer(today, id, walletName, amount, expiresAt, lowValue, broadcast);
          case Submit(id, allowExpired, broadcast) => SubmitPayload(today, id, allowExpired, broadcast);
          case Release(id, toFailed) => var _ := ReleaseLowValueReservation(today, id, toFailed);
          case Settle(id, txHash, receipt) => TxStatusSummary(today, id, txHash, receipt);
        }
      }
      assert calls[..|calls|] == calls;
      RunKeepsStep(start, today, calls, verdict);
    }
  }
}
