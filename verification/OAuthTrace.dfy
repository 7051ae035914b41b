/**
 What an OAuth administrator observes of the authorization server and of the credential store, as a trace of events,
 and what has to hold of every such trace: no grant that may still be live is overwritten or lost without a reason.
 */
module OAuthTrace {
  import opened Options

  const MAX_SAFE_INTEGER: int := 0x1F_FFFF_FFFF_FFFF
  const MAX_REGISTRATION_LIFETIME: int := 31_536_000

  /** A refresh token together with the client it was issued to; this pair is what gets revoked. */
  datatype Grant = Grant(refreshToken: string, clientId: string)

  datatype SessionState = Active | ReauthRequired

  datatype Record = Record(
    sessionState: SessionState,
    clientId: string,
    issuedAt: int,
    expiresAt: int,
    accessToken: string,
    accessExpiresAt: int,
    refreshToken: string,
    generation: int)
  {
    function Held(): Grant {
      Grant(refreshToken, clientId)
    }
  }

  /** `fits`: the registration is for this version of the client and for the redirect it asked for. */
  datatype Registration = Registration(clientId: string, issuedAt: int, expiresAt: int, wellFormed: bool, fits: bool)

  datatype TokenResponse = TokenResponse(accessToken: string, refreshToken: string, expiresIn: int, wellFormed: bool)

  // ----- the records built from a reply

  predicate RecordParses(r: Record) {
    && r.issuedAt < r.expiresAt <= r.issuedAt + MAX_REGISTRATION_LIFETIME
    && r.accessToken != r.refreshToken
    && 0 < r.generation <= MAX_SAFE_INTEGER
  }

  function Parsed(r: Record): Option<Record> {
    if RecordParses(r) then Some(r) else None
  }

  /** The moment an access token expires, when it can be represented. */
  function AccessExpiry(tokens: TokenResponse, now: int): Option<int> {
    if !tokens.wellFormed || now < 0 || now > MAX_SAFE_INTEGER then None
    else if now < now + tokens.expiresIn * 1000 <= MAX_SAFE_INTEGER then Some(now + tokens.expiresIn * 1000)
    else None
  }

  /** The tokens of the record are those of the reply, and the access token expires its lifetime in seconds after `now`. */
  predicate HoldsReply(r: Record, tokens: TokenResponse, now: int) {
    && r.accessToken == tokens.accessToken && r.refreshToken == tokens.refreshToken
    && r.accessExpiresAt == now + 1_000 * tokens.expiresIn
    && 0 <= now < r.accessExpiresAt <= 0x1F_FFFF_FFFF_FFFF
  }

  function CreateRecord(reg: Registration, tokens: TokenResponse, now: int): (r: Option<Record>)
    ensures r.Some? ==> r.value.Held() == Grant(tokens.refreshToken, reg.clientId) && r.value.sessionState.Active?
    ensures r.Some? <==>
      && reg.wellFormed && reg.issuedAt < reg.expiresAt <= reg.issuedAt + 365 * 86_400
      && tokens.wellFormed && tokens.accessToken != tokens.refreshToken
      && 0 <= now && 0 < 1_000 * tokens.expiresIn <= 0x1F_FFFF_FFFF_FFFF - now
    ensures r.Some? ==> HoldsReply(r.value, tokens, now) && r.value.generation == 1
    ensures r.Some? ==> r.value.issuedAt == reg.issuedAt && r.value.expiresAt == reg.expiresAt
  {
    var expiry := AccessExpiry(tokens, now);
    if !reg.wellFormed || expiry.None? then None
    else Parsed(Record(Active, reg.clientId, reg.issuedAt, reg.expiresAt, tokens.accessToken, expiry.value, tokens.refreshToken, 1))
  }

  /** The record after a refresh; a token that repeats one of the current pair is refused. */
  function RotateRecord(current: Record, tokens: TokenResponse, now: int): (r: Option<Record>)
    ensures r.Some? <==>
      && current.issuedAt < current.expiresAt <= current.issuedAt + 365 * 86_400
      && 0 < current.generation < 0x1F_FFFF_FFFF_FFFF
      && tokens.wellFormed && |{tokens.accessToken, tokens.refreshToken, current.accessToken, current.refreshToken}| == 4
      && 0 <= now && 0 < 1_000 * tokens.expiresIn <= 0x1F_FFFF_FFFF_FFFF - now
    ensures r.Some? ==>
      && r.value.Held() == Grant(tokens.refreshToken, current.clientId) && r.value.sessionState.Active?
      && r.value.generation == current.generation + 1 && r.value.Held() != current.Held()
      && HoldsReply(r.value, tokens, now) && r.value.accessToken != current.accessToken
      && r.value.issuedAt == current.issuedAt && r.value.expiresAt == current.expiresAt
  {
    var expiry := AccessExpiry(tokens, now);
    if !RecordParses(current) || expiry.None? || current.generation >= MAX_SAFE_INTEGER
      || tokens.accessToken in {current.accessToken, current.refreshToken}
      || tokens.refreshToken in {current.accessToken, current.refreshToken} then None
    else Parsed(current.(sessionState := Active, accessToken := tokens.accessToken, accessExpiresAt := expiry.value,
      refreshToken := tokens.refreshToken, generation := current.generation + 1))
  }

  function Mark(r: Record): Record {
    r.(sessionState := ReauthRequired)
  }

  // ----- events

  datatype Reason = AccessDenied | InvalidClient | OtherReason

  datatype Callback = Code | Denied(reason: Reason)

  /**
   Everything a command observes: the lock, the clock, the replies of the server or their absence, and every access to the
   store with what the slot held when the access began.
   */
  datatype Event =
    | Locked(acquired: bool)
    | Metadata(verified: bool)
    | Clock(now: int)
    | Registered(reply: Option<Registration>)
    | Authorized(callback: Option<Callback>)
    | Issued(registration: Registration, tokens: TokenResponse)
    | ExchangeRefused(invalidClient: bool)
    | Rotated(current: Record, tokens: TokenResponse)
    | RefreshRefused(reauthenticate: bool)
    | Revoked(grant: Grant)
    | RevokeFailed(grant: Grant)
    | ReadOk(slot: Option<Record>)
    | ReadFailed
    | Wrote(over: Option<Record>, record: Record, ok: bool)
    | Deleted(over: Option<Record>, removed: bool)

  predicate Delivers(e: Event, g: Grant) {
    match e
    case Issued(reg, tokens) => g == Grant(tokens.refreshToken, reg.clientId)
    case Rotated(current, tokens) => g == Grant(tokens.refreshToken, current.clientId)
    case _ => false
  }

  /** A confirmed revocation, or a refresh that hands out another token in place of this one. */
  predicate Kills(e: Event, g: Grant) {
    match e
    case Revoked(grant) => grant == g
    case Rotated(current, tokens) => current.Held() == g && tokens.refreshToken != g.refreshToken
    case _ => false
  }

  ghost predicate Delivered(log: seq<Event>, g: Grant) {
    exists i :: 0 <= i < |log| && Delivers(log[i], g)
  }

  /**
   The server is assumed never to revive a grant whose revocation it has confirmed or that it has rotated away, so
   every live grant is one that is not known to be dead.
   */
  ghost predicate KnownDead(log: seq<Event>, g: Grant) {
    exists i :: 0 <= i < |log| && Kills(log[i], g)
  }

  // ----- the reasons for which a delivered grant may be lost

  /** The tokens were delivered just before, no record could be built from them, and the revocation was not confirmed. */
  predicate NotBuilt(log: seq<Event>, i: nat, g: Grant)
    requires i < |log|
  {
    i >= 2 &&
    match (log[i - 2], log[i - 1])
    case (Clock(now), Rotated(current, tokens)) =>
      g == Grant(tokens.refreshToken, current.clientId) && RotateRecord(current, tokens, now).None?
    case (Issued(reg, tokens), Clock(now)) =>
      g == Grant(tokens.refreshToken, reg.clientId) && CreateRecord(reg, tokens, now).None?
    case _ => false
  }

  predicate SafeState(stored: Option<Record>, prior: Option<Record>, replacement: Record) {
    stored == None || stored == prior || stored == Some(replacement)
  }

  /**
   The write of the record failed, the revocation that followed was not confirmed, and then the compensating read
   failed, or it found a record of someone else, or the compensating write failed.
   */
  predicate NotCompensated(log: seq<Event>, i: nat, g: Grant)
    requires i < |log|
  {
    i >= 1 && i + 1 < |log| && log[i - 1].Wrote? && !log[i - 1].ok && log[i - 1].record.Held() == g &&
    match log[i + 1]
    case ReadFailed => true
    case ReadOk(stored) =>
      || !SafeState(stored, log[i - 1].over, log[i - 1].record)
      || (i + 2 < |log| && log[i + 2] == Wrote(stored, Mark(log[i - 1].record), false))
    case _ => false
  }

  predicate ExcusedAt(log: seq<Event>, i: nat, g: Grant) {
    i < |log| && log[i] == RevokeFailed(g) && (NotBuilt(log, i, g) || NotCompensated(log, i, g))
  }

  ghost predicate Excused(log: seq<Event>, g: Grant) {
    exists i :: ExcusedAt(log, i, g)
  }

  predicate Stored(slot: Option<Record>, g: Grant) {
    slot.Some? && slot.value.Held() == g
  }

  /** Every delivered grant that may be live is the stored one or was lost for one of the reasons above. */
  ghost predicate Accounted(log: seq<Event>, slot: Option<Record>) {
    forall g :: Delivered(log, g) && !KnownDead(log, g) ==> Stored(slot, g) || Excused(log, g)
  }

  /** Apart from one pending grant, no grant depends on the store any more. */
  ghost predicate Covered(log: seq<Event>, pending: Option<Grant>) {
    forall g :: Delivered(log, g) && !KnownDead(log, g) && pending != Some(g) ==> Excused(log, g)
  }

  // ----- which writes and deletions are allowed

  ghost predicate RevokedBefore(log: seq<Event>, i: nat, g: Grant)
    requires i <= |log|
  {
    exists j :: 0 <= j < i && log[j] == Revoked(g)
  }

  /** A record rotated out of the stored one replaces exactly that record, right after the rotation. */
  predicate RotationWrite(log: seq<Event>, i: nat)
    requires i < |log| && log[i].Wrote?
  {
    && i >= 2 && log[i - 1].Rotated? && log[i - 2].Clock?
    && log[i].over == Some(log[i - 1].current)
    && RotateRecord(log[i - 1].current, log[i - 1].tokens, log[i - 2].now) == Some(log[i].record)
  }

  /** An interactive login fills an empty slot, or one whose grant was revoked with confirmation. */
  ghost predicate LoginWrite(log: seq<Event>, i: nat)
    requires i < |log| && log[i].Wrote?
  {
    && i >= 2 && log[i - 1].Clock? && log[i - 2].Issued?
    && CreateRecord(log[i - 2].registration, log[i - 2].tokens, log[i - 1].now) == Some(log[i].record)
    && (log[i].over.Some? ==> RevokedBefore(log, i, log[i].over.value.Held()))
  }

  /** After a rotation from which no record could be built, the stored record is only marked. */
  predicate MarkWrite(log: seq<Event>, i: nat)
    requires i < |log| && log[i].Wrote?
  {
    log[i].over.Some? && log[i].record == Mark(log[i].over.value)
  }

  /**
   Three events back the write of a new record failed; the slot was just read and is empty, as before that write, or as
   that write left it.
   */
  predicate Compensation(log: seq<Event>, i: nat, over: Option<Record>)
    requires i < |log|
  {
    && i >= 3 && log[i - 3].Wrote? && !log[i - 3].ok && log[i - 3].record.sessionState.Active? && log[i - 1] == ReadOk(over)
    && SafeState(over, log[i - 3].over, log[i - 3].record)
    && log[i - 2] in {Revoked(log[i - 3].record.Held()), RevokeFailed(log[i - 3].record.Held())}
  }

  /** The replacement is kept, marked; or the prior record is put back, marked, once the replacement is revoked. */
  predicate CompensationWrite(log: seq<Event>, i: nat)
    requires i < |log| && log[i].Wrote?
  {
    && Compensation(log, i, log[i].over)
    && (log[i].record == Mark(log[i - 3].record)
        || (log[i - 2].Revoked? && log[i - 3].over.Some? && log[i].record == Mark(log[i - 3].over.value)))
  }

  ghost predicate AllowedAt(log: seq<Event>, i: nat)
    requires i < |log|
  {
    match log[i]
    case Wrote(_, _, _) => RotationWrite(log, i) || LoginWrite(log, i) || MarkWrite(log, i) || CompensationWrite(log, i)
    case Deleted(over, _) => over.Some? ==> RevokedBefore(log, i, over.value.Held())
    case _ => true
  }

  ghost predicate Disciplined(log: seq<Event>) {
    forall i :: 0 <= i < |log| ==> AllowedAt(log, i)
  }

  // ----- appending one event

  lemma Append(log: seq<Event>, e: Event)
    ensures forall g :: Delivered(log + [e], g) <==> Delivered(log, g) || Delivers(e, g)
    ensures forall g :: KnownDead(log + [e], g) <==> KnownDead(log, g) || Kills(e, g)
    ensures forall g :: Excused(log, g) ==> Excused(log + [e], g)
    ensures Disciplined(log) && AllowedAt(log + [e], |log|) ==> Disciplined(log + [e])
  {
    var log' := log + [e];
    assert log'[|log|] == e;
    forall g
      ensures Delivered(log', g) <==> Delivered(log, g) || Delivers(e, g)
      ensures KnownDead(log', g) <==> KnownDead(log, g) || Kills(e, g)
      ensures Excused(log, g) ==> Excused(log', g)
    {
      AppendFor(log, e, g);
    }
    if Disciplined(log) && AllowedAt(log', |log|) {
      forall i | 0 <= i < |log'| ensures AllowedAt(log', i) {
        if i < |log| {
          AllowedKept(log, e, i);
        }
      }
    }
  }

  lemma AppendFor(log: seq<Event>, e: Event, g: Grant)
    ensures Delivered(log + [e], g) <==> Delivered(log, g) || Delivers(e, g)
    ensures KnownDead(log + [e], g) <==> KnownDead(log, g) || Kills(e, g)
    ensures Excused(log, g) ==> Excused(log + [e], g)
  {
    var log' := log + [e];
    assert forall i :: 0 <= i < |log| ==> log'[i] == log[i];
    assert log'[|log|] == e;
    if Delivered(log, g) {
      var i :| 0 <= i < |log| && Delivers(log[i], g);
      assert Delivers(log'[i], g);
    }
    if KnownDead(log, g) {
      var i :| 0 <= i < |log| && Kills(log[i], g);
      assert Kills(log'[i], g);
    }
    if Excused(log, g) {
      var i :| ExcusedAt(log, i, g);
      assert ExcusedAt(log', i, g);
    }
  }

  lemma AllowedKept(log: seq<Event>, e: Event, i: nat)
    requires i < |log| && AllowedAt(log, i)
    ensures AllowedAt(log + [e], i)
  {
    var log' := log + [e];
    assert forall k :: 0 <= k < |log| ==> log'[k] == log[k];
    forall g | RevokedBefore(log, i, g) ensures RevokedBefore(log', i, g) {
      var j :| 0 <= j < i && log[j] == Revoked(g);
      assert log'[j] == Revoked(g);
    }
  }

  // ----- what the discipline means

  lemma DeadBefore(log: seq<Event>, j: nat, i: nat, g: Grant)
    requires j < i <= |log| && Kills(log[j], g)
    ensures KnownDead(log[..i], g)
  {
    assert log[..i][j] == log[j];
  }

  /** The record a failed first write was about to replace belonged to a dead grant. */
  lemma PriorIsDead(log: seq<Event>, i: nat)
    requires i < |log| && log[i].Wrote? && (RotationWrite(log, i) || LoginWrite(log, i)) && log[i].over.Some?
    ensures KnownDead(log[..i], log[i].over.value.Held())
  {
  }

  /** A write that follows the discipline only ever replaces a record of the same grant or of a grant known to be dead. */
  lemma NeverOverwritesLive(log: seq<Event>, i: nat)
    requires Disciplined(log) && i < |log| && log[i].Wrote? && log[i].over.Some?
    ensures
      var g := log[i].over.value.Held();
      g == log[i].record.Held() || KnownDead(log[..i], g)
  {
    assert AllowedAt(log, i);
    var over := log[i].over.value;
    if RotationWrite(log, i) || LoginWrite(log, i) {
      PriorIsDead(log, i);
    } else if CompensationWrite(log, i) {
      assert AllowedAt(log, i - 3);
      if over == log[i - 3].record {
        if log[i].record != Mark(log[i - 3].record) {
          DeadBefore(log, i - 2, i, over.Held());
        }
      } else {
        assert !MarkWrite(log, i - 3) && !CompensationWrite(log, i - 3);
        PriorIsDead(log, i - 3);
        var j :| 0 <= j < |log[..i - 3]| && Kills(log[..i - 3][j], over.Held());
        DeadBefore(log, j, i, over.Held());
      }
    }
  }
}
