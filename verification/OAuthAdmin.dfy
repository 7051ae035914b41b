/**
 The OAuth administrator: login and logout against a server and a credential store that may fail at every step, with
 or without the effect. The environment chooses freely; its contracts are what the stores and the server promise.
 */
module OAuthAdmin {
  import opened Options
  import opened OAuthTrace
  import opened OAuthVerdict

  datatype Error =
    | AdminError(code: ErrorCode)
    | InvalidClientRetry
    | StoreError
    | HttpError(reauthenticate: bool, invalidClient: bool)

  datatype Action = Authenticated | AlreadyAuthenticated | Refreshed | LoggedOut | NoAction

  datatype Outcome = Done(action: Action) | Thrown(error: Error)

  datatype Result = Ok(action: Action) | Failed(code: ErrorCode)

  datatype Reply<T> = Value(value: T) | Error(error: Error)

  const ACCESS_TOKEN_SAFETY_WINDOW_MS := 30_000
  const REGISTRATION_CLOCK_SKEW_SECONDS := 60

  function Registrations(log: seq<Event>): nat {
    if log == [] then 0 else Registrations(log[..|log| - 1]) + (if log[|log| - 1].Registered? then 1 else 0)
  }

  lemma CountAppend(log: seq<Event>, e: Event)
    ensures Registrations(log + [e]) == Registrations(log) + (if e.Registered? then 1 else 0)
  {
    assert (log + [e])[..|log|] == log;
  }

  /** The credential store and the authorization server, each free to fail, and the trace of what was observed. */
  class Environment {
    var slot: Option<Record>
    ghost var log: seq<Event>

    constructor ()
      ensures slot == None && log == []
    {
      slot, log := None, [];
    }

    ghost predicate Inv()
      reads this
    {
      Accounted(log, slot) && Disciplined(log)
    }

    // ----- the store: a read returns the slot, a successful write was read back, a failed access may have any effect

    method Read() returns (r: Reply<Option<Record>>)
      modifies this`log
      ensures log == old(log) + [if r.Value? then ReadOk(slot) else ReadFailed]
      ensures r.Value? ==> r.value == slot
      ensures r.Error? ==> r.error == StoreError
    {
      var fails: bool := *;
      r := if fails then Error(StoreError) else Value(slot);
      log := log + [if fails then ReadFailed else ReadOk(slot)];
    }

    /** A failed write may leave the old record, the new one, or whatever else ended up in the slot. */
    method Write(record: Record) returns (ok: bool)
      modifies this
      ensures log == old(log) + [Wrote(old(slot), record, ok)]
      ensures ok ==> slot == Some(record)
    {
      ok := *;
      log := log + [Wrote(slot, record, ok)];
      if ok {
        slot := Some(record);
      } else {
        slot := *;
      }
    }

    /** Whatever it answers or throws, a deletion may or may not have taken effect: only a later read tells. */
    method Delete() returns (r: Reply<bool>)
      modifies this
      ensures log == old(log) + [Deleted(old(slot), r.Value? && r.value)]
      ensures slot == None || slot == old(slot)
    {
      var fails: bool, effect: bool, removed: bool := *, *, *;
      r := if fails then Error(StoreError) else Value(removed);
      log := log + [Deleted(slot, r.Value? && r.value)];
      if effect {
        slot := None;
      }
    }

    // ----- the server

    method VerifyMetadata() returns (ok: bool)
      modifies this`log
      ensures log == old(log) + [Metadata(ok)]
    {
      ok := *;
      log := log + [Metadata(ok)];
    }

    /** A refresh may also take effect on the server and still fail here. */
    method Refresh(current: Record) returns (r: Reply<TokenResponse>)
      modifies this`log
      ensures r.Error? ==> r.error.HttpError?
      ensures log == old(log) + [if r.Value? then Rotated(current, r.value) else RefreshRefused(r.error.reauthenticate)]
    {
      var tokens: TokenResponse, fails: bool, reauthenticate: bool, invalidClient: bool := *, *, *, *;
      if fails {
        log := log + [RefreshRefused(reauthenticate)];
        return Error(HttpError(reauthenticate, invalidClient));
      }
      log := log + [Rotated(current, tokens)];
      r := Value(tokens);
    }

    method Exchange(registration: Registration) returns (r: Reply<TokenResponse>)
      modifies this`log
      ensures r.Error? ==> r.error.HttpError?
      ensures log == old(log) + [if r.Value? then Issued(registration, r.value) else ExchangeRefused(r.error.invalidClient)]
    {
      var tokens: TokenResponse, fails: bool, reauthenticate: bool, invalidClient: bool := *, *, *, *;
      if fails {
        log := log + [ExchangeRefused(invalidClient)];
        return Error(HttpError(reauthenticate, invalidClient));
      }
      log := log + [Issued(registration, tokens)];
      r := Value(tokens);
    }

    method Revoke(grant: Grant) returns (ok: bool)
      modifies this`log
      ensures log == old(log) + [if ok then Revoked(grant) else RevokeFailed(grant)]
    {
      ok := *;
      log := log + [if ok then Revoked(grant) else RevokeFailed(grant)];
    }

    method Register() returns (r: Reply<Registration>)
      modifies this`log
      ensures log == old(log) + [Registered(if r.Value? then Some(r.value) else None)]
      ensures r.Error? ==> r.error == HttpError(false, false)
    {
      var registration: Registration, fails: bool := *, *;
      log := log + [Registered(if fails then None else Some(registration))];
      r := if fails then Error(HttpError(false, false)) else Value(registration);
    }

    method Now() returns (now: int)
      modifies this`log
      ensures log == old(log) + [Clock(now)]
    {
      now := *;
      log := log + [Clock(now)];
    }

    /** Loopback listener, browser and authorization callback, which may each fail. */
    method Authorize() returns (r: Reply<Callback>)
      modifies this`log
      ensures log == old(log) + [Authorized(if r.Value? then Some(r.value) else None)]
      ensures r.Error? ==> r.error == AdminError(Unavailable)
    {
      var callback: Callback, fails: bool := *, *;
      log := log + [Authorized(if fails then None else Some(callback))];
      r := if fails then Error(AdminError(Unavailable)) else Value(callback);
    }

    method AcquireLock() returns (acquired: bool)
      modifies this`log
      ensures log == old(log) + [Locked(acquired)]
    {
      acquired := *;
      log := log + [Locked(acquired)];
    }
  }

  /** What the store held and when it was read. */
  datatype Opened = Opened(stored: Option<Record>, now: int)

  predicate SafeNow(now: int) {
    0 <= now <= MAX_SAFE_INTEGER
  }

  predicate ValidRegistration(r: Registration, nowMs: nat) {
    var nowSeconds := nowMs / 1000;
    && r.wellFormed && r.fits
    && nowSeconds - REGISTRATION_CLOCK_SKEW_SECONDS <= r.issuedAt <= nowSeconds + REGISTRATION_CLOCK_SKEW_SECONDS
    && r.expiresAt > nowSeconds
  }

  predicate Usable(r: Record, now: int) {
    r.sessionState.Active? && r.expiresAt * 1000 > now
  }

  function Normalize(e: Error): ErrorCode {
    match e
    case AdminError(code) => code
    case StoreError => CredentialStoreUnavailable
    case _ => Unavailable
  }

  // ----- events that neither deliver nor kill, and single deliveries

  /** An event that delivers nothing keeps every grant covered. */
  lemma CoveredAfter(log: seq<Event>, e: Event, pending: Option<Grant>)
    requires Covered(log, pending)
    requires forall g :: Delivers(e, g) ==> pending == Some(g)
    ensures Covered(log + [e], pending)
  {
    Append(log, e);
  }

  /** Everything that one more event without effect on the store leaves as it was, and what it means for the answer. */
  lemma Observed(log: seq<Event>, from: nat, e: Event)
    requires Disciplined(log) && Covered(log, None) && from <= |log|
    requires !e.Wrote? && !e.Deleted? && forall g :: !Delivers(e, g)
    ensures Disciplined(log + [e]) && Covered(log + [e], None)
    ensures Registrations(log + [e]) == Registrations(log) + (if e.Registered? then 1 else 0)
    ensures Verdict(log + [e], from) == if Verdict(log, from).Some? then Verdict(log, from) else Cause(log, from, e)
    ensures Refusals(log + [e], from) == Refusals(log, from) + if RefusesClient(e) then 1 else 0
  {
    CoveredAfter(log, e, None);
    Append(log, e);
    CountAppend(log, e);
    VerdictAppend(log, from, e);
  }

  /** The same for an event that leaves everything accounted for. */
  lemma Noted(log: seq<Event>, slot: Option<Record>, from: nat, e: Event)
    requires Accounted(log, slot) && Disciplined(log) && from <= |log|
    requires e.Locked? || e.Metadata? || e.Clock?
    ensures Accounted(log + [e], slot) && Disciplined(log + [e])
    ensures Registrations(log + [e]) == Registrations(log)
    ensures Verdict(log + [e], from) == if Verdict(log, from).Some? then Verdict(log, from) else Cause(log, from, e)
    ensures Refusals(log + [e], from) == Refusals(log, from)
  {
    AccountedAfter(log, slot, e);
    Append(log, e);
    CountAppend(log, e);
    VerdictAppend(log, from, e);
  }

  /** The check in whole seconds is the one on the exact moment. */
  lemma ValidIsCurrent(r: Registration, nowMs: nat)
    ensures ValidRegistration(r, nowMs) <==> Current(r, nowMs)
  {
  }

  /** The answer of an interactive attempt: the first refusal of a client is not an error yet. */
  function AttemptVerdict(r: Reply<Record>, refusals: nat): Option<ErrorCode> {
    if r.Value? || (r.error == InvalidClientRetry && refusals == 0) then None else Some(Normalize(r.error))
  }

  lemma CoveredExcept(log: seq<Event>, g: Grant)
    requires Covered(log, None)
    ensures Covered(log, Some(g))
  {
  }

  lemma AccountedAfter(log: seq<Event>, slot: Option<Record>, e: Event)
    requires Accounted(log, slot)
    requires forall g :: !Delivers(e, g)
    ensures Accounted(log + [e], slot)
  {
    Append(log, e);
  }

  /** A record's grant that is known to be dead no longer ties anything to the store. */
  lemma DeadUncovers(log: seq<Event>, slot: Option<Record>, e: Event)
    requires Accounted(log, slot)
    requires slot.Some? ==> Kills(e, slot.value.Held())
    requires forall g :: !Delivers(e, g)
    ensures Covered(log + [e], None)
  {
    Append(log, e);
  }

  /** After a rotation only the delivered grant is pending: the stored one is dead or is the delivered one itself. */
  lemma RotationPending(log: seq<Event>, current: Record, tokens: TokenResponse)
    requires Accounted(log, Some(current))
    ensures Covered(log + [Rotated(current, tokens)], Some(Grant(tokens.refreshToken, current.clientId)))
  {
    Append(log, Rotated(current, tokens));
  }

  lemma Unstored(log: seq<Event>)
    requires Accounted(log, None)
    ensures Covered(log, None)
  {
  }

  /** Once the pending grant is excused or dead, or sits in the slot, everything is accounted for. */
  lemma Settled(log: seq<Event>, slot: Option<Record>, pending: Option<Grant>)
    requires Covered(log, pending)
    requires pending.Some? ==> Stored(slot, pending.value) || Excused(log, pending.value) || KnownDead(log, pending.value)
    ensures Accounted(log, slot)
  {
  }

  /** The compensating read failed or found a record of someone else: the replacement is revoked, or excused. */
  lemma Uncompensated(log: seq<Event>, slot: Option<Record>, prior: Option<Record>, replacement: Record, revoked: bool)
    requires |log| >= 3 && log[|log| - 3] == Wrote(prior, replacement, false)
    requires log[|log| - 2] == if revoked then Revoked(replacement.Held()) else RevokeFailed(replacement.Held())
    requires log[|log| - 1] == ReadFailed || (log[|log| - 1].ReadOk? && !SafeState(log[|log| - 1].slot, prior, replacement))
    requires Covered(log, Some(replacement.Held()))
    ensures Accounted(log, slot)
  {
    if revoked {
      assert Kills(log[|log| - 2], replacement.Held());
    } else {
      assert ExcusedAt(log, |log| - 2, replacement.Held());
    }
    Settled(log, slot, Some(replacement.Held()));
  }

  /** What a compensation does to the store once it has looked: keep a record, marked; remove the stored one; or nothing. */
  datatype Remedy = Keep(record: Record) | Remove | Leave

  /** The replacement is kept when it could not be revoked or is still there, otherwise the record it was rotated from. */
  function AfterRefresh(current: Record, replacement: Record): (bool, Option<Record>) -> Remedy {
    (revoked, stored) => Keep(if revoked && stored != Some(replacement) then current else replacement)
  }

  /** The same after a login, but without a prior record a revoked replacement is removed. */
  function AfterLogin(prior: Option<Record>, replacement: Record): (bool, Option<Record>) -> Remedy {
    (revoked, stored) => if !revoked then Keep(replacement)
                         else if prior.Some? then Keep(prior.value)
                         else if stored == Some(replacement) then Remove else Leave
  }

  /**
   From position `from` on: the replacement's grant was revoked or not, the store was read, and when it was empty or held the
   prior record or the replacement, the remedy was applied; otherwise nothing more was done.
   */
  predicate Compensated(
      log: seq<Event>, from: nat, prior: Option<Record>, replacement: Record, remedy: (bool, Option<Record>) -> Remedy)
  {
    && |log| >= from + 2
    && log[from] in {Revoked(replacement.Held()), RevokeFailed(replacement.Held())}
    && if log[from + 1].ReadOk? && log[from + 1].slot in [None, prior, Some(replacement)] then
         match remedy(log[from].Revoked?, log[from + 1].slot)
         case Keep(r) =>
           && |log| == from + 3 && log[from + 2].Wrote? && log[from + 2].over == log[from + 1].slot
           && log[from + 2].record == r.(sessionState := ReauthRequired)
         case Remove => |log| == from + 3 && log[from + 2].Deleted?
         case Leave => |log| == from + 2
       else |log| == from + 2 && (log[from + 1].ReadOk? || log[from + 1].ReadFailed?)
  }

  class SteleOAuthAdmin {
    const env: Environment

    constructor (env: Environment)
      ensures this.env == env
    {
      this.env := env;
    }

    /** What holds when a record was built for a pending grant and its write has just failed. */
    ghost predicate WriteFailed(prior: Option<Record>, replacement: Record)
      reads env
    {
      && |env.log| >= 1 && env.log[|env.log| - 1] == Wrote(prior, replacement, false)
      && replacement.sessionState.Active?
      && Covered(env.log, Some(replacement.Held()))
      && Disciplined(env.log)
    }

    method CompensateFailedRefreshCommit(current: Record, replacement: Record)
      requires WriteFailed(Some(current), replacement)
      modifies env
      ensures env.Inv() && old(env.log) <= env.log && Registrations(env.log) == old(Registrations(env.log))
      ensures Compensated(env.log, old(|env.log|), Some(current), replacement, AfterRefresh(current, replacement))
    {
      var revoked := RevokeAfterFailedWrite(Some(current), replacement);
      var stored := ReadForCompensation(replacement.Held(), revoked);
      if stored.Error? || !SafeState(stored.value, Some(current), replacement) {
        Uncompensated(env.log, env.slot, Some(current), replacement, revoked);
        return;
      }
      var retained := if revoked then (if stored.value == Some(replacement) then replacement else current) else replacement;
      CompensatingWrite(Some(current), replacement, revoked, stored.value, retained);
    }

    method CompensateFailedInteractiveCommit(prior: Option<Record>, replacement: Record)
      requires WriteFailed(prior, replacement)
      modifies env
      ensures env.Inv() && old(env.log) <= env.log && Registrations(env.log) == old(Registrations(env.log))
      ensures Compensated(env.log, old(|env.log|), prior, replacement, AfterLogin(prior, replacement))
    {
      var revoked := RevokeAfterFailedWrite(prior, replacement);
      var stored := ReadForCompensation(replacement.Held(), revoked);
      if stored.Error? || !SafeState(stored.value, prior, replacement) {
        Uncompensated(env.log, env.slot, prior, replacement, revoked);
        return;
      }
      if !revoked {
        CompensatingWrite(prior, replacement, revoked, stored.value, replacement);
        return;
      }
      if prior.Some? {
        CompensatingWrite(prior, replacement, revoked, stored.value, prior.value);
      } else if stored.value == Some(replacement) {
        DeleteReplacement(replacement);
      } else {
        Settled(env.log, env.slot, Some(replacement.Held()));
      }
    }

    /** A replacement that is revoked and has no predecessor is removed again; the result is ignored. */
    method DeleteReplacement(replacement: Record)
      requires |env.log| >= 2 && env.log[|env.log| - 2] == Revoked(replacement.Held()) && env.slot == Some(replacement)
      requires Disciplined(env.log) && Covered(env.log, Some(replacement.Held()))
      modifies env
      ensures env.Inv() && Registrations(env.log) == old(Registrations(env.log))
      ensures exists removed :: env.log == old(env.log) + [Deleted(Some(replacement), removed)]
    {
      ghost var before := env.log;
      var _ := env.Delete();
      Append(before, env.log[|before|]);
      CountAppend(before, env.log[|before|]);
      assert env.log[|before| - 2] == Revoked(replacement.Held());
      assert Kills(env.log[|before| - 2], replacement.Held());
      Settled(env.log, env.slot, Some(replacement.Held()));
    }

    method RevokeAfterFailedWrite(prior: Option<Record>, replacement: Record) returns (revoked: bool)
      requires WriteFailed(prior, replacement)
      modifies env`log
      ensures Disciplined(env.log) && Covered(env.log, Some(replacement.Held()))
      ensures env.log == old(env.log) + [if revoked then Revoked(replacement.Held()) else RevokeFailed(replacement.Held())]
      ensures revoked ==> KnownDead(env.log, replacement.Held())
      ensures Registrations(env.log) == old(Registrations(env.log))
    {
      ghost var before := env.log;
      revoked := env.Revoke(replacement.Held());
      ghost var e := if revoked then Revoked(replacement.Held()) else RevokeFailed(replacement.Held());
      Append(before, e);
      CountAppend(before, e);
    }

    method ReadForCompensation(ghost g: Grant, ghost revoked: bool) returns (stored: Reply<Option<Record>>)
      requires Disciplined(env.log) && Covered(env.log, Some(g)) && (revoked ==> KnownDead(env.log, g))
      modifies env`log
      ensures Disciplined(env.log) && Covered(env.log, Some(g)) && (revoked ==> KnownDead(env.log, g))
      ensures env.log == old(env.log) + [if stored.Value? then ReadOk(env.slot) else ReadFailed]
      ensures stored.Value? ==> stored.value == env.slot
      ensures Registrations(env.log) == old(Registrations(env.log))
    {
      ghost var before := env.log;
      stored := env.Read();
      ghost var e := if stored.Value? then ReadOk(env.slot) else ReadFailed;
      Append(before, e);
      CountAppend(before, e);
    }

    /** Marks the retained record; a failure of this write is the last of the reasons for losing the replacement. */
    method CompensatingWrite(
        ghost prior: Option<Record>, replacement: Record, revoked: bool, ghost stored: Option<Record>, retained: Record)
      requires |env.log| >= 3 && env.log[|env.log| - 3] == Wrote(prior, replacement, false) && replacement.sessionState.Active?
      requires env.log[|env.log| - 2] == if revoked then Revoked(replacement.Held()) else RevokeFailed(replacement.Held())
      requires env.log[|env.log| - 1] == ReadOk(stored) && stored == env.slot && SafeState(stored, prior, replacement)
      requires retained == replacement || (revoked && prior == Some(retained))
      requires Disciplined(env.log) && Covered(env.log, Some(replacement.Held()))
      modifies env
      ensures env.Inv() && Registrations(env.log) == old(Registrations(env.log))
      ensures exists ok :: env.log == old(env.log) + [Wrote(stored, Mark(retained), ok)]
    {
      ghost var before := env.log;
      ghost var n := |before|;
      var ok := env.Write(Mark(retained));
      ghost var e := Wrote(stored, Mark(retained), ok);
      assert env.log[n - 3] == before[n - 3] && env.log[n - 2] == before[n - 2] && env.log[n - 1] == before[n - 1];
      assert CompensationWrite(env.log, n);
      Append(before, e);
      CountAppend(before, e);
      if revoked {
        assert Kills(env.log[n - 2], replacement.Held());
      } else if !ok {
        assert ExcusedAt(env.log, n - 2, replacement.Held());
      }
      Settled(env.log, env.slot, Some(replacement.Held()));
    }

    // ----- what login and logout do first

    method ReadStored() returns (stored: Reply<Option<Record>>)
      requires env.Inv()
      modifies env`log
      ensures env.Inv() && old(env.log) <= env.log && Registrations(env.log) == old(Registrations(env.log))
      ensures env.log == old(env.log) + [if stored.Value? then ReadOk(env.slot) else ReadFailed]
      ensures stored.Value? ==> stored.value == env.slot
      ensures stored.Error? ==> stored.error == StoreError
    {
      ghost var before := env.log;
      stored := env.Read();
      ghost var e := if stored.Value? then ReadOk(env.slot) else ReadFailed;
      Append(before, e);
      CountAppend(before, e);
    }

    /** Once the revocation is confirmed, nothing depends on the stored record any more. */
    method RevokeStored(current: Record) returns (revoked: bool)
      requires env.Inv() && env.slot == Some(current)
      modifies env`log
      ensures env.Inv() && old(env.log) <= env.log && Registrations(env.log) == old(Registrations(env.log))
      ensures env.log == old(env.log) + [if revoked then Revoked(current.Held()) else RevokeFailed(current.Held())]
      ensures revoked ==> Covered(env.log, None) && RevokedBefore(env.log, |env.log|, current.Held())
    {
      ghost var before := env.log;
      revoked := env.Revoke(current.Held());
      ghost var e := if revoked then Revoked(current.Held()) else RevokeFailed(current.Held());
      Append(before, e);
      CountAppend(before, e);
      if revoked {
        DeadUncovers(before, env.slot, e);
        assert env.log[|before|] == Revoked(current.Held());
      }
    }

    // ----- login

    /** A usable stored session is rotated and the new record replaces the old one. */
    method RefreshCommit(current: Record, now: int, ghost from: nat) returns (outcome: Outcome)
      requires env.Inv() && env.slot == Some(current)
      requires |env.log| >= 1 && env.log[|env.log| - 1] == Clock(now)
      requires from <= |env.log| && Verdict(env.log, from).None?
      modifies env
      ensures env.Inv() && old(env.log) <= env.log && Registrations(env.log) == old(Registrations(env.log))
      ensures outcome.Thrown? && IsReauthentication(outcome.error) ==>
        env.log == old(env.log) + [RefreshRefused(true)] && env.slot == old(env.slot)
      ensures outcome.Done? ==> outcome.action == Refreshed && HoldsFresh(env.slot, env.log, old(|env.log|))
      ensures outcome.Done? ==> env.slot.value.generation == current.generation + 1
      ensures outcome.Done? ==> |env.log| > old(|env.log|) && env.log[old(|env.log|)].Rotated?
      ensures Verdict(env.log, from) ==
              if outcome.Done? || IsReauthentication(outcome.error) then None else Some(Normalize(outcome.error))
    {
      hide Verdict, Registrations, Covered, RotateRecord;
      ghost var before := env.log;
      var reply := env.Refresh(current);
      VerdictAppend(before, from, env.log[|before|]);
      Append(before, env.log[|before|]);
      CountAppend(before, env.log[|before|]);
      if reply.Error? {
        return Thrown(reply.error);
      }
      RotationPending(before, current, reply.value);
      assert Delivers(env.log[|before|], Grant(reply.value.refreshToken, current.clientId));
      var ok := RotateAndCommit(current, reply.value, now, from);
      outcome := if ok then Done(Refreshed) else Thrown(StoreError);
    }

    /** The delivered tokens are rotated into a record that replaces the stored one; failing that, they are revoked. */
    method RotateAndCommit(current: Record, tokens: TokenResponse, now: int, ghost from: nat) returns (ok: bool)
      requires Disciplined(env.log) && Covered(env.log, Some(Grant(tokens.refreshToken, current.clientId)))
      requires |env.log| >= 2 && env.log[|env.log| - 2] == Clock(now) && env.log[|env.log| - 1] == Rotated(current, tokens)
      requires env.slot == Some(current) && from < |env.log|
      requires Verdict(env.log, from) == if RotateRecord(current, tokens, now).Some? then None else Some(CredentialStoreUnavailable)
      modifies env
      ensures env.Inv() && old(env.log) <= env.log && Registrations(env.log) == old(Registrations(env.log))
      ensures ok ==> RotateRecord(current, tokens, now).Some? && env.slot == RotateRecord(current, tokens, now)
      ensures Verdict(env.log, from) == if ok then None else Some(CredentialStoreUnavailable)
      ensures var n, replacement := old(|env.log|), RotateRecord(current, tokens, now);
              if replacement.None? then
                && |env.log| == n + 2 && env.log[n + 1].Wrote? && env.log[n + 1].record == current.(sessionState := ReauthRequired)
                && env.log[n] in {Revoked(Grant(tokens.refreshToken, current.clientId)),
                                  RevokeFailed(Grant(tokens.refreshToken, current.clientId))}
              else
                && |env.log| > n && env.log[n] == Wrote(Some(current), replacement.value, ok)
                && (!ok ==> Compensated(env.log, n + 1, Some(current), replacement.value, AfterRefresh(current, replacement.value)))
    {
      hide Verdict, Compensated, AfterRefresh, Registrations, Covered, Accounted, Disciplined, RotateRecord, CreateRecord;
      ghost var rotated := env.log;
      var pending := Grant(tokens.refreshToken, current.clientId);
      var replacement := RotateRecord(current, tokens, now);
      if replacement.None? {
        RevokeUnbuilt(pending);
        MarkStored(current, pending);
        VerdictKept(rotated, from, env.log);
        return false;
      }
      ok := CommitRecord(Some(current), replacement.value);
      ghost var committed := env.log;
      VerdictAppend(rotated, from, Wrote(Some(current), replacement.value, ok));
      if !ok {
        CompensateFailedRefreshCommit(current, replacement.value);
        VerdictKept(committed, from, env.log);
      }
    }

    /** Revokes a grant from which no record could be built; the result is ignored. */
    method RevokeUnbuilt(grant: Grant)
      requires Disciplined(env.log) && Covered(env.log, Some(grant))
      requires NotBuilt(env.log + [RevokeFailed(grant)], |env.log|, grant)
      modifies env`log
      ensures Disciplined(env.log) && Covered(env.log, None)
      ensures exists e :: e in {Revoked(grant), RevokeFailed(grant)} && env.log == old(env.log) + [e]
      ensures Registrations(env.log) == old(Registrations(env.log))
    {
      ghost var before := env.log;
      var ok := env.Revoke(grant);
      ghost var e := if ok then Revoked(grant) else RevokeFailed(grant);
      Append(before, e);
      CountAppend(before, e);
      if !ok {
        assert ExcusedAt(env.log, |before|, grant);
      }
    }

    method MarkStored(current: Record, ghost pending: Grant)
      requires Disciplined(env.log) && Covered(env.log, None) && env.slot == Some(current)
      modifies env
      ensures env.Inv() && Registrations(env.log) == old(Registrations(env.log))
      ensures exists ok :: env.log == old(env.log) + [Wrote(Some(current), current.(sessionState := ReauthRequired), ok)]
    {
      ghost var before := env.log;
      var ok := env.Write(Mark(current));
      ghost var e := Wrote(Some(current), Mark(current), ok);
      assert MarkWrite(env.log, |before|);
      Append(before, e);
      CountAppend(before, e);
      Settled(env.log, env.slot, None);
    }

    /** The first write of a new record. */
    method CommitRecord(ghost over: Option<Record>, record: Record) returns (ok: bool)
      requires Disciplined(env.log) && Covered(env.log, Some(record.Held())) && record.sessionState.Active? && env.slot == over
      requires forall ok :: var log' := env.log + [Wrote(over, record, ok)];
        RotationWrite(log', |env.log|) || LoginWrite(log', |env.log|)
      modifies env
      ensures env.log == old(env.log) + [Wrote(over, record, ok)] && Registrations(env.log) == old(Registrations(env.log))
      ensures ok ==> env.slot == Some(record) && env.Inv()
      ensures !ok ==> WriteFailed(over, record)
    {
      ghost var before := env.log;
      ok := env.Write(record);
      ghost var e := Wrote(over, record, ok);
      assert AllowedAt(env.log, |before|);
      Append(before, e);
      CountAppend(before, e);
      if ok {
        Settled(env.log, env.slot, Some(record.Held()));
      }
    }

    /** Registers, authorizes and exchanges; the grant of the returned record is the one still pending. */
    method InteractiveAttempt(ghost from: nat) returns (r: Reply<Record>)
      requires Disciplined(env.log) && Covered(env.log, None)
      requires from <= |env.log| && Verdict(env.log, from).None?
      modifies env`log
      ensures Disciplined(env.log) && old(env.log) <= env.log && Registrations(env.log) <= old(Registrations(env.log)) + 1
      ensures r.Error? ==> Covered(env.log, None)
      ensures r.Value? ==> Covered(env.log, Some(r.value.Held())) && EndsInCreation(env.log, r.value)
      ensures r.Value? ==> old(|env.log|) <= |env.log| - 2
      ensures Verdict(env.log, from) == AttemptVerdict(r, old(Refusals(env.log, from)))
      ensures r == Error(InvalidClientRetry) ==> Refusals(env.log, from) == old(Refusals(env.log, from)) + 1
    {
      hide Disciplined, EndsInCreation, Covered, Verdict, Refusals, Registrations;
      var registered := env.Register();
      ghost var reply := Registered(if registered.Value? then Some(registered.value) else None);
      Observed(old(env.log), from, reply);
      if registered.Error? {
        return Error(registered.error);
      }
      var registration := registered.value;
      ghost var before := env.log;
      var nowMs := env.Now();
      Observed(before, from, Clock(nowMs));
      assert Last(before) == Some(reply);
      if SafeNow(nowMs) {
        ValidIsCurrent(registration, nowMs);
      }
      if !SafeNow(nowMs) || !ValidRegistration(registration, nowMs) {
        return Error(AdminError(Unavailable));
      }
      r := AuthorizeAndExchange(registration, from);
    }

    /** What the callback says is turned into an error, or the code is exchanged. */
    method AuthorizeAndExchange(registration: Registration, ghost from: nat) returns (r: Reply<Record>)
      requires Disciplined(env.log) && Covered(env.log, None)
      requires from <= |env.log| && Verdict(env.log, from).None?
      modifies env`log
      ensures Disciplined(env.log) && old(env.log) <= env.log && Registrations(env.log) == old(Registrations(env.log))
      ensures r.Error? ==> Covered(env.log, None)
      ensures r.Value? ==> Covered(env.log, Some(r.value.Held())) && EndsInCreation(env.log, r.value)
      ensures r.Value? ==> old(|env.log|) <= |env.log| - 2
      ensures Verdict(env.log, from) == AttemptVerdict(r, old(Refusals(env.log, from)))
      ensures r == Error(InvalidClientRetry) ==> Refusals(env.log, from) == old(Refusals(env.log, from)) + 1
    {
      hide Disciplined, EndsInCreation, Covered, Verdict, Refusals, Registrations;
      var callback := env.Authorize();
      Observed(old(env.log), from, Authorized(if callback.Value? then Some(callback.value) else None));
      if callback.Error? {
        return Error(callback.error);
      }
      if callback.value.Denied? {
        return Error(if callback.value.reason == AccessDenied then AdminError(Cancelled)
                     else if callback.value.reason == InvalidClient then InvalidClientRetry else AdminError(Unavailable));
      }
      r := ExchangeAndCreate(registration, from);
    }

    /** The code is exchanged for tokens and a record is created from them; failing that, the tokens are revoked. */
    method ExchangeAndCreate(registration: Registration, ghost from: nat) returns (r: Reply<Record>)
      requires Disciplined(env.log) && Covered(env.log, None)
      requires from <= |env.log| && Verdict(env.log, from).None?
      modifies env`log
      ensures Disciplined(env.log) && old(env.log) <= env.log && Registrations(env.log) == old(Registrations(env.log))
      ensures r.Error? ==> Covered(env.log, None)
      ensures r.Value? ==> Covered(env.log, Some(r.value.Held())) && EndsInCreation(env.log, r.value)
      ensures r.Value? ==> old(|env.log|) <= |env.log| - 2
      ensures Verdict(env.log, from) == AttemptVerdict(r, old(Refusals(env.log, from)))
      ensures r == Error(InvalidClientRetry) ==> Refusals(env.log, from) == old(Refusals(env.log, from)) + 1
    {
      hide Verdict, Refusals, Registrations, Covered, RotateRecord;
      ghost var before := env.log;
      var reply := env.Exchange(registration);
      VerdictAppend(before, from, env.log[|before|]);
      if reply.Error? {
        Observed(before, from, ExchangeRefused(reply.error.invalidClient));
        return Error(if reply.error.invalidClient then InvalidClientRetry else reply.error);
      }
      var tokens := reply.value;
      var pending := Grant(tokens.refreshToken, registration.clientId);
      CoveredExcept(before, pending);
      CoveredAfter(before, Issued(registration, tokens), Some(pending));
      Append(before, Issued(registration, tokens));
      CountAppend(before, Issued(registration, tokens));
      ghost var issued := env.log;
      var now := env.Now();
      CoveredAfter(issued, Clock(now), Some(pending));
      Append(issued, Clock(now));
      CountAppend(issued, Clock(now));
      VerdictAppend(issued, from, Clock(now));
      ghost var built := env.log;
      var record := CreateRecord(registration, tokens, now);
      if record.None? {
        RevokeUnbuilt(pending);
        VerdictKept(built, from, env.log);
        return Error(if SafeNow(now) then StoreError else AdminError(Unavailable));
      }
      return Value(record.value);
    }

    /** At most two interactive attempts; a second one only after the client registration was refused. */
    method InteractiveLogin(current: Option<Record>, ghost from: nat) returns (outcome: Outcome)
      requires Disciplined(env.log) && Covered(env.log, None) && env.slot == current
      requires from <= |env.log| && Verdict(env.log, from).None? && Refusals(env.log, from) == 0
      requires current.Some? ==> RevokedBefore(env.log, |env.log|, current.value.Held())
      modifies env
      ensures env.Inv() && old(env.log) <= env.log && Registrations(env.log) <= old(Registrations(env.log)) + 2
      ensures outcome.Done? ==> outcome.action == Authenticated && HoldsFresh(env.slot, env.log, old(|env.log|))
      ensures Verdict(env.log, from) == if outcome.Done? then None else Some(Normalize(outcome.error))
    {
      hide Verdict, Refusals, Registrations, Disciplined, Covered, Accounted, CreateRecord;
      var invalidClientRetries := 0;
      while true
        invariant Disciplined(env.log) && Covered(env.log, None) && env.slot == current && old(env.log) <= env.log
        invariant 0 <= invalidClientRetries <= 1
        invariant Verdict(env.log, from).None? && Refusals(env.log, from) == invalidClientRetries
        invariant Registrations(env.log) <= old(Registrations(env.log)) + invalidClientRetries
        decreases 1 - invalidClientRetries
      {
        var authenticated := InteractiveAttempt(from);
        if authenticated.Error? {
          if authenticated.error == InvalidClientRetry && invalidClientRetries == 0 {
            invalidClientRetries := invalidClientRetries + 1;
            continue;
          }
          Settled(env.log, env.slot, None);
          return Thrown(authenticated.error);
        }
        assert current.Some? ==> RevokedBefore(env.log, |env.log|, current.value.Held());
        outcome := CommitInteractive(current, authenticated.value, from);
        return;
      }
    }

    method CommitInteractive(current: Option<Record>, record: Record, ghost from: nat) returns (outcome: Outcome)
      requires Disciplined(env.log) && Covered(env.log, Some(record.Held())) && env.slot == current
      requires EndsInCreation(env.log, record) && record.sessionState.Active?
      requires current.Some? ==> RevokedBefore(env.log, |env.log|, current.value.Held())
      requires from <= |env.log| && Verdict(env.log, from).None?
      modifies env
      ensures env.Inv() && old(env.log) <= env.log && Registrations(env.log) == old(Registrations(env.log))
      ensures outcome.Done? ==> outcome.action == Authenticated && HoldsFresh(env.slot, env.log, old(|env.log|) - 2)
      ensures Verdict(env.log, from) == if outcome.Done? then None else Some(Normalize(outcome.error))
      ensures |env.log| > old(|env.log|) && env.log[old(|env.log|)] == Wrote(current, record, outcome.Done?)
      ensures outcome.Thrown? ==> Compensated(env.log, old(|env.log|) + 1, current, record, AfterLogin(current, record))
    {
      hide Verdict, Compensated, AfterLogin, Refusals, Registrations, Covered, Accounted, Disciplined;
      LoginWriteReady(env.log, current, record);
      assert Delivers(env.log[|env.log| - 2], record.Held());
      ghost var created := env.log;
      var ok := CommitRecord(current, record);
      ghost var committed := env.log;
      VerdictAppend(created, from, Wrote(current, record, ok));
      if !ok {
        CompensateFailedInteractiveCommit(current, record);
        VerdictKept(committed, from, env.log);
        return Thrown(StoreError);
      }
      return Done(Authenticated);
    }

    method LoginExclusive(ghost from: nat) returns (outcome: Outcome)
      requires env.Inv() && |env.log| == from + 1 && env.log[from] == Locked(true)
      requires Verdict(env.log, from).None? && Refusals(env.log, from) == 0
      modifies env
      ensures env.Inv() && old(env.log) <= env.log && Registrations(env.log) <= old(Registrations(env.log)) + 2
      ensures outcome.Done? ==>
        match outcome.action
        case AlreadyAuthenticated => env.slot == old(env.slot) && IsLasting(env.slot, env.log, old(|env.log|))
        case Refreshed => HoldsFresh(env.slot, env.log, old(|env.log|))
        case Authenticated => HoldsFresh(env.slot, env.log, old(|env.log|))
        case _ => false
      ensures outcome.Done? ==> Chosen(outcome.action, old(env.slot), env.log, from)
      ensures Verdict(env.log, from) == if outcome.Done? then None else Some(Normalize(outcome.error))
    {
      hide Disciplined, Accounted, Covered, RevokedBefore, Verdict, Refusals, Registrations, Cause;
      var opening := Opening(from);
      if opening.Error? {
        return Thrown(opening.error);
      }
      var current, now := opening.value.stored, opening.value.now;
      if current.Some? && Usable(current.value, now) && current.value.accessExpiresAt - ACCESS_TOKEN_SAFETY_WINDOW_MS > now {
        assert env.log[|env.log| - 1] == Clock(now) && LastsAt(current.value, now);
        return Done(AlreadyAuthenticated);
      }
      outcome := Renew(current, now, from);
    }

    /** The metadata is verified, then the store and the clock are read. */
    method Opening(ghost from: nat) returns (r: Reply<Opened>)
      requires env.Inv() && from <= |env.log| && Verdict(env.log, from).None?
      modifies env`log
      ensures env.Inv() && old(env.log) <= env.log && Registrations(env.log) == old(Registrations(env.log))
      ensures Refusals(env.log, from) == old(Refusals(env.log, from))
      ensures r.Value? ==> r.value.stored == env.slot
      ensures r.Value? ==> env.log == old(env.log) + [Metadata(true), ReadOk(env.slot), Clock(r.value.now)]
      ensures Verdict(env.log, from) == if r.Value? then None else Some(Normalize(r.error))
    {
      hide Disciplined, Accounted, Covered, RevokedBefore, Verdict, Refusals, Registrations;
      var metadata := env.VerifyMetadata();
      Noted(old(env.log), env.slot, from, Metadata(metadata));
      if !metadata {
        return Error(HttpError(false, false));
      }
      ghost var before := env.log;
      var read := ReadStored();
      VerdictAppend(before, from, env.log[|before|]);
      if read.Error? {
        return Error(read.error);
      }
      before := env.log;
      var now := env.Now();
      Noted(before, env.slot, from, Clock(now));
      if !SafeNow(now) {
        return Error(AdminError(Unavailable));
      }
      r := Value(Opened(read.value, now));
    }

    /** A session that may be refreshed is refreshed; a new one is established when it may not, or the server refuses. */
    method Renew(current: Option<Record>, now: int, ghost from: nat) returns (outcome: Outcome)
      requires env.Inv() && env.slot == current
      requires |env.log| >= 1 && env.log[|env.log| - 1] == Clock(now)
      requires from <= |env.log| && Verdict(env.log, from).None? && Refusals(env.log, from) == 0
      modifies env
      ensures env.Inv() && old(env.log) <= env.log && Registrations(env.log) <= old(Registrations(env.log)) + 2
      ensures outcome.Done? ==> outcome.action in {Refreshed, Authenticated} && HoldsFresh(env.slot, env.log, old(|env.log|))
      ensures outcome.Done? ==>
        var open := current.Some? && Usable(current.value, now);
        var next := if |env.log| > old(|env.log|) then Some(env.log[old(|env.log|)]) else None;
        && (outcome.action == Refreshed <==> open && next.Some? && next.value.Rotated?)
        && (outcome.action == Authenticated <==> !open || next == Some(RefreshRefused(true)))
      ensures Verdict(env.log, from) == if outcome.Done? then None else Some(Normalize(outcome.error))
    {
      hide Disciplined, Accounted, Covered, RevokedBefore, Verdict, Refusals, Registrations, Usable;
      if current.Some? && Usable(current.value, now) {
        ghost var before := env.log;
        outcome := RefreshCommit(current.value, now, from);
        if outcome.Done? || !IsReauthentication(outcome.error) {
          return;
        }
        VerdictAppend(before, from, RefreshRefused(true));
      }
      outcome := Establish(current, from);
    }

    /** A stored grant is revoked before anything replaces it. */
    method Establish(current: Option<Record>, ghost from: nat) returns (outcome: Outcome)
      requires env.Inv() && env.slot == current
      requires from <= |env.log| && Verdict(env.log, from).None? && Refusals(env.log, from) == 0
      modifies env
      ensures env.Inv() && old(env.log) <= env.log && Registrations(env.log) <= old(Registrations(env.log)) + 2
      ensures outcome.Done? ==> outcome.action == Authenticated && HoldsFresh(env.slot, env.log, old(|env.log|))
      ensures Verdict(env.log, from) == if outcome.Done? then None else Some(Normalize(outcome.error))
    {
      hide Disciplined, Accounted, Covered, RevokedBefore, Verdict, Refusals, Registrations;
      if current.Some? {
        ghost var before := env.log;
        var revoked := RevokeStored(current.value);
        VerdictAppend(before, from, env.log[|before|]);
        if !revoked {
          return Thrown(HttpError(false, false));
        }
      } else {
        Unstored(env.log);
      }
      outcome := InteractiveLogin(current, from);
    }

    /** The answer is the error of the first observation that ends the login, and a success when there is none. */
    method Login() returns (r: Result)
      requires env.Inv()
      modifies env
      ensures env.Inv() && old(env.log) <= env.log && Registrations(env.log) <= old(Registrations(env.log)) + 2
      ensures r.Ok? && r.action == AlreadyAuthenticated ==> env.slot == old(env.slot) && IsLasting(env.slot, env.log, old(|env.log|))
      ensures r.Ok? && r.action != AlreadyAuthenticated ==>
        r.action in {Refreshed, Authenticated} && HoldsFresh(env.slot, env.log, old(|env.log|))
      ensures Verdict(env.log, old(|env.log|)) == if r.Ok? then None else Some(r.code)
      ensures r.Ok? ==> Chosen(r.action, old(env.slot), env.log, old(|env.log|))
    {
      ghost var from := |env.log|;
      var acquired := env.AcquireLock();
      Noted(old(env.log), env.slot, from, Locked(acquired));
      if !acquired {
        return Failed(Busy);
      }
      var outcome := LoginExclusive(from);
      r := if outcome.Done? then Ok(outcome.action) else Failed(Normalize(outcome.error));
    }

    /** The credential leaves the store only after the server has confirmed that its grant is revoked. */
    method Logout() returns (r: Result)
      requires env.Inv()
      modifies env
      ensures env.Inv() && old(env.log) <= env.log && Registrations(env.log) == old(Registrations(env.log))
      ensures r.Ok? ==> env.slot == None && (r.action == NoAction || r.action == LoggedOut)
      ensures r.Ok? && r.action == NoAction ==> old(env.slot) == None
      ensures r.Ok? && r.action == LoggedOut ==> old(env.slot).Some? && KnownDead(env.log, old(env.slot).value.Held())
      ensures env.slot != old(env.slot) ==> old(env.slot).Some? && KnownDead(env.log, old(env.slot).value.Held())
      ensures Verdict(env.log, old(|env.log|)) == if r.Ok? then None else Some(r.code)
    {
      hide Disciplined, Accounted, Covered, RevokedBefore, KnownDead, Verdict, Refusals, Registrations;
      ghost var from := |env.log|;
      VerdictStart(env.log);
      var acquired := env.AcquireLock();
      Noted(old(env.log), env.slot, from, Locked(acquired));
      if !acquired {
        return Failed(Busy);
      }
      ghost var before := env.log;
      var read := ReadStored();
      VerdictAppend(before, from, env.log[|before|]);
      if read.Error? {
        return Failed(Normalize(read.error));
      }
      if read.value == None {
        return Ok(NoAction);
      }
      before := env.log;
      var revoked := RevokeStored(read.value.value);
      VerdictAppend(before, from, env.log[|before|]);
      if !revoked {
        return Failed(Unavailable);
      }
      var deleted := DeleteRevoked(read.value.value, from);
      r := if deleted then Ok(LoggedOut) else Failed(CredentialStoreUnavailable);
    }

    /** The stored record is removed and the removal checked; its grant is revoked, so nothing is lost either way. */
    method DeleteRevoked(current: Record, ghost from: nat) returns (deleted: bool)
      requires Disciplined(env.log) && Covered(env.log, None) && env.slot == Some(current)
      requires RevokedBefore(env.log, |env.log|, current.Held())
      requires from <= |env.log| && Verdict(env.log, from).None?
      modifies env
      ensures env.Inv() && old(env.log) <= env.log && Registrations(env.log) == old(Registrations(env.log))
      ensures deleted ==> env.slot == None
      ensures Verdict(env.log, from) == if deleted then None else Some(CredentialStoreUnavailable)
      ensures KnownDead(env.log, current.Held())
    {
      hide Verdict, Refusals, Registrations, Covered, Accounted, Excused, Delivered, RotateRecord, CreateRecord;
      ghost var before := env.log;
      ghost var j :| 0 <= j < |before| && before[j] == Revoked(current.Held());
      var removed := env.Delete();
      ghost var e := Deleted(Some(current), removed.Value? && removed.value);
      Append(before, e);
      CountAppend(before, e);
      VerdictAppend(before, from, e);
      CoveredAfter(before, e, None);
      assert env.log[j] == before[j] && Kills(env.log[j], current.Held());
      Settled(env.log, env.slot, None);
      if removed.Error? || !removed.value {
        return false;
      }
      before := env.log;
      var check := ReadStored();
      VerdictAppend(before, from, env.log[|before|]);
      deleted := check.Value? && check.value == None;
    }
  }

  predicate IsReauthentication(e: Error) {
    e.HttpError? && e.reauthenticate
  }

  /** By a clock read since, the stored session and its registration are valid and the access token lasts past the window. */
  ghost predicate IsLasting(slot: Option<Record>, log: seq<Event>, from: nat) {
    && slot.Some? && slot.value.sessionState.Active?
    && exists i :: from <= i < |log| && log[i].Clock? && LastsAt(slot.value, log[i].now)
  }

  /**
   What a login that succeeded did: under the lock, after the metadata was verified, it read the store and the clock. An
   access token that lasts more than half a minute is kept; otherwise a session that may be refreshed is refreshed; and only
   when there is none, or the server refused the refresh, is a new one established.
   */
  predicate Chosen(action: Action, stored: Option<Record>, log: seq<Event>, from: nat) {
    && |log| >= from + 4
    && log[from] == Locked(true) && log[from + 1] == Metadata(true) && log[from + 2] == ReadOk(stored) && log[from + 3].Clock?
    && var now := log[from + 3].now;
       var open := stored.Some? && stored.value.sessionState == Active && now < stored.value.expiresAt * 1000;
       var lasting := open && now + 30_000 < stored.value.accessExpiresAt;
       var next := if |log| > from + 4 then Some(log[from + 4]) else None;
       && (action == AlreadyAuthenticated <==> lasting)
       && (action == Refreshed <==> open && !lasting && next.Some? && next.value.Rotated?)
       && (action == Authenticated <==> !open || (!lasting && next == Some(RefreshRefused(true))))
  }

  predicate LastsAt(r: Record, now: int) {
    r.expiresAt * 1000 > now && r.accessExpiresAt > now + ACCESS_TOKEN_SAFETY_WINDOW_MS
  }

  /** The slot holds an active record of a grant that was delivered at or after position `from`. */
  ghost predicate HoldsFresh(slot: Option<Record>, log: seq<Event>, from: nat) {
    && slot.Some? && slot.value.sessionState.Active?
    && exists i :: from <= i < |log| && Delivers(log[i], slot.value.Held())
  }

  /** The log ends with the delivery of tokens and the clock reading from which the record was created. */
  predicate EndsInCreation(log: seq<Event>, record: Record) {
    && |log| >= 2 && log[|log| - 1].Clock? && log[|log| - 2].Issued?
    && CreateRecord(log[|log| - 2].registration, log[|log| - 2].tokens, log[|log| - 1].now) == Some(record)
  }

  lemma LoginWriteReady(log: seq<Event>, over: Option<Record>, record: Record)
    requires EndsInCreation(log, record)
    requires over.Some? ==> RevokedBefore(log, |log|, over.value.Held())
    ensures forall ok :: LoginWrite(log + [Wrote(over, record, ok)], |log|)
  {
    forall ok ensures LoginWrite(log + [Wrote(over, record, ok)], |log|) {
      var log' := log + [Wrote(over, record, ok)];
      if over.Some? {
        var j :| 0 <= j < |log| && log[j] == Revoked(over.value.Held());
        assert log'[j] == log[j];
      }
    }
  }

  datatype Command = Login | Logout

  /** What the slot holds after a command that answered `r`. */
  predicate Answers(c: Command, r: Result, slot: Option<Record>) {
    r.Ok? ==>
      match c
      case Login => slot.Some? && slot.value.sessionState.Active? && r.action in {AlreadyAuthenticated, Refreshed, Authenticated}
      case Logout => slot.None? && r.action in {NoAction, LoggedOut}
  }

  /** The answer of a command that observed the part of the trace between two positions. */
  predicate AnsweredBy(r: Result, log: seq<Event>, from: nat, to: nat) {
    from <= to <= |log| && Verdict(log[..to], from) == if r.Ok? then None else Some(r.code)
  }

  lemma AnswerStays(r: Result, log: seq<Event>, from: nat, to: nat, later: seq<Event>)
    requires AnsweredBy(r, log, from, to) && log <= later
    ensures AnsweredBy(r, later, from, to)
  {
    assert later[..to] == log[..to];
  }

  function Logins(commands: seq<Command>): nat {
    if commands == [] then 0 else Logins(commands[..|commands| - 1]) + if commands[|commands| - 1].Login? then 1 else 0
  }

  /** The commands split the trace, and each is answered by what it observed. */
  predicate AllAnswered(answers: seq<Result>, log: seq<Event>, marks: seq<nat>) {
    |marks| == |answers| + 1 && forall i :: 0 <= i < |answers| ==> AnsweredBy(answers[i], log, marks[i], marks[i + 1])
  }

  lemma OneMoreAnswer(answers: seq<Result>, log: seq<Event>, marks: seq<nat>, r: Result, later: seq<Event>)
    requires AllAnswered(answers, log, marks) && marks[|answers|] == |log|
    requires log <= later && Verdict(later, |log|) == if r.Ok? then None else Some(r.code)
    ensures AllAnswered(answers + [r], later, marks + [|later|])
  {
    hide Verdict;
    assert later[..|later|] == later;
    assert AnsweredBy(r, later, |log|, |later|);
    hide AnsweredBy;
    var answers', marks' := answers + [r], marks + [|later|];
    forall i | 0 <= i < |answers'| ensures AnsweredBy(answers'[i], later, marks'[i], marks'[i + 1]) {
      if i < |answers| {
        AnswerStays(answers[i], log, marks[i], marks[i + 1], later);
        assert answers'[i] == answers[i] && marks'[i] == marks[i] && marks'[i + 1] == marks[i + 1];
      }
    }
  }

  /**
   Every sequence of logins and logouts, from any accounted state, answers each command by the part of the trace that it
   observed, keeps every delivered grant accounted for and every write disciplined, only ever extends the trace, and
   registers at most two clients a login. After the last command the slot holds what its answer says.
   */
  method AnyRun(admin: SteleOAuthAdmin, commands: seq<Command>) returns (answers: seq<Result>, ghost marks: seq<nat>)
    requires admin.env.Inv()
    modifies admin.env
    ensures admin.env.Inv() && old(admin.env.log) <= admin.env.log
    ensures |answers| == |commands| && AllAnswered(answers, admin.env.log, marks)
    ensures marks[0] == old(|admin.env.log|) && marks[|answers|] == |admin.env.log|
    ensures Registrations(admin.env.log) <= old(Registrations(admin.env.log)) + 2 * Logins(commands)
    ensures commands != [] ==> Answers(commands[|commands| - 1], answers[|commands| - 1], admin.env.slot)
    ensures commands == [] ==> admin.env.slot == old(admin.env.slot) && admin.env.log == old(admin.env.log)
  {
    hide Verdict, AllAnswered, Registrations, Accounted, Disciplined;
    answers, marks := [], [|admin.env.log|];
    assert AllAnswered(answers, admin.env.log, marks) by { NoAnswer(admin.env.log); }
    for i := 0 to |commands|
      invariant admin.env.Inv() && old(admin.env.log) <= admin.env.log && |answers| == i && |marks| == i + 1
      invariant AllAnswered(answers, admin.env.log, marks)
      invariant marks[0] == old(|admin.env.log|) && marks[i] == |admin.env.log|
      invariant Registrations(admin.env.log) <= old(Registrations(admin.env.log)) + 2 * Logins(commands[..i])
      invariant i > 0 ==> Answers(commands[i - 1], answers[i - 1], admin.env.slot)
      invariant i == 0 ==> admin.env.slot == old(admin.env.slot) && admin.env.log == old(admin.env.log)
    {
      ghost var before := admin.env.log;
      var answer: Result;
      match commands[i] {
        case Login => answer := admin.Login();
        case Logout => answer := admin.Logout();
      }
      OneMoreAnswer(answers, before, marks, answer, admin.env.log);
      answers, marks := answers + [answer], marks + [|admin.env.log|];
      assert commands[..i + 1][..i] == commands[..i];
    }
    assert commands[..|commands|] == commands;
  }

  lemma NoAnswer(log: seq<Event>)
    ensures AllAnswered([], log, [|log|])
  {
  }
}
