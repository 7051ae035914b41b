/**
 Which of the events that a command observes ends it, and with which error: the answer of a command is the error of the
 first such event, and a success when there is none.
 */
module OAuthVerdict {
  import opened Options
  import opened OAuthTrace

  datatype ErrorCode = Cancelled | Busy | CredentialStoreUnavailable | Unavailable

  /** The registration was issued within a minute of the moment, has not expired, and is for this client and redirect. */
  predicate Current(r: Registration, now: int) {
    && r.wellFormed && r.fits
    && (r.issuedAt - 60) * 1000 <= now < (r.issuedAt + 61) * 1000 && now < r.expiresAt * 1000
  }

  /** The server refuses the client it registered just before. */
  predicate RefusesClient(e: Event) {
    e == Authorized(Some(Denied(InvalidClient))) || e == ExchangeRefused(true)
  }

  /** How often the server has refused a client since position `from`. */
  function Refusals(log: seq<Event>, from: nat): nat {
    if |log| <= from then 0
    else Refusals(log[..|log| - 1], from) + if RefusesClient(log[|log| - 1]) then 1 else 0
  }

  function Last(log: seq<Event>): Option<Event> {
    if log == [] then None else Some(log[|log| - 1])
  }

  /**
   The error with which an event ends a command that began at `from`; none lets it go on. A refused refresh is none when
   the session has to be established anew, nor is the first refusal of a client.
   */
  function Cause(log: seq<Event>, from: nat, e: Event): Option<ErrorCode> {
    match e
    case Locked(ok) => if ok then None else Some(Busy)
    case Metadata(ok) => if ok then None else Some(Unavailable)
    case Clock(now) =>
      if !(0 <= now <= 0x1F_FFFF_FFFF_FFFF) then Some(Unavailable)
      else
        (match Last(log)
        case Some(Registered(Some(registration))) => if Current(registration, now) then None else Some(Unavailable)
        case Some(Issued(registration, tokens)) =>
          if CreateRecord(registration, tokens, now).Some? then None else Some(CredentialStoreUnavailable)
        case _ => None)
    case Registered(registration) => if registration.Some? then None else Some(Unavailable)
    case Authorized(None) => Some(Unavailable)
    case Authorized(Some(Code)) => None
    case Authorized(Some(Denied(AccessDenied))) => Some(Cancelled)
    case Authorized(Some(Denied(InvalidClient))) => if Refusals(log, from) == 0 then None else Some(Unavailable)
    case Authorized(Some(Denied(OtherReason))) => Some(Unavailable)
    case Issued(_, _) => None
    case ExchangeRefused(invalidClient) => if invalidClient && Refusals(log, from) == 0 then None else Some(Unavailable)
    case Rotated(current, tokens) =>
      (match Last(log)
       case Some(Clock(now)) => if RotateRecord(current, tokens, now).Some? then None else Some(CredentialStoreUnavailable)
       case _ => None)
    case RefreshRefused(reauthenticate) => if reauthenticate then None else Some(Unavailable)
    case Revoked(_) => None
    case RevokeFailed(_) => Some(Unavailable)
    case ReadOk(slot) =>
      if slot.Some? && Last(log).Some? && Last(log).value.Deleted? then Some(CredentialStoreUnavailable) else None
    case ReadFailed => Some(CredentialStoreUnavailable)
    case Wrote(_, _, ok) => if ok then None else Some(CredentialStoreUnavailable)
    case Deleted(_, removed) => if removed then None else Some(CredentialStoreUnavailable)
  }

  /** The error of the first event since `from` that ends the command. */
  function Verdict(log: seq<Event>, from: nat): Option<ErrorCode> {
    if |log| <= from then None
    else
      var before := log[..|log| - 1];
      if Verdict(before, from).Some? then Verdict(before, from) else Cause(before, from, log[|log| - 1])
  }

  lemma VerdictStart(log: seq<Event>)
    ensures Verdict(log, |log|).None? && Refusals(log, |log|) == 0
  {
  }

  lemma VerdictAppend(log: seq<Event>, from: nat, e: Event)
    requires from <= |log|
    ensures Verdict(log + [e], from) == if Verdict(log, from).Some? then Verdict(log, from) else Cause(log, from, e)
    ensures Refusals(log + [e], from) == Refusals(log, from) + if RefusesClient(e) then 1 else 0
  {
    assert (log + [e])[..|log|] == log;
  }

  /** Once a command has failed, nothing it does afterwards changes its answer. */
  lemma {:induction false} VerdictKept(log: seq<Event>, from: nat, later: seq<Event>)
    requires from <= |log| && log <= later && Verdict(log, from).Some?
    ensures Verdict(later, from) == Verdict(log, from)
    decreases |later|
  {
    if log != later {
      assert log <= later[..|later| - 1];
      VerdictKept(log, from, later[..|later| - 1]);
    } else {
      assert log == later;
    }
  }
}
