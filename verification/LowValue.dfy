/**
 A wallet's low-value policy over units: five daily buckets, read lazily and reset on a new day. The stored record
 writes the same numbers as decimal texts; LowValueRecord shows that the two agree.
 */
module LowValue {
  import opened Options

  datatype Bucket = Reserved | Submitted | Confirmed | Failed | Expired

  /** The stored fields. Every bucket may be absent in a record written by an older version. */
  datatype Policy = Policy(
    enabled: bool,
    maxAmount: nat,
    dailyLimit: Option<nat>,
    day: Option<string>,
    spent: Option<nat>,
    reserved: Option<nat>,
    submitted: Option<nat>,
    confirmed: Option<nat>,
    failed: Option<nat>,
    expired: Option<nat>)
  {
    function Field(b: Bucket): Option<nat> {
      match b
      case Reserved => reserved
      case Submitted => submitted
      case Confirmed => confirmed
      case Failed => failed
      case Expired => expired
    }

    function WithField(b: Bucket, value: nat): Policy {
      match b
      case Reserved => this.(reserved := Some(value))
      case Submitted => this.(submitted := Some(value))
      case Confirmed => this.(confirmed := Some(value))
      case Failed => this.(failed := Some(value))
      case Expired => this.(expired := Some(value))
    }

    /** What a bucket holds when the record is read on `today` without being rewritten. */
    function Held(today: string, b: Bucket): nat {
      if day != Some(today) then 0
      else if b.Reserved? then reserved.Or(spent.Or(0))
      else Field(b).Or(0)
    }

    function Locked(today: string): nat {
      Held(today, Reserved) + Held(today, Submitted) + Held(today, Confirmed)
    }

    function Total(today: string): nat {
      Locked(today) + Held(today, Failed) + Held(today, Expired)
    }
  }

  function Monus(a: nat, b: nat): nat {
    if a > b then a - b else 0
  }

  // ----- the three rewrites, as functions from record to record

  function Reset(p: Policy, today: string): Policy {
    if p.day == Some(today) then
      p.(reserved := Some(p.reserved.Or(p.spent.Or(0))),
         submitted := Some(p.submitted.Or(0)),
         confirmed := Some(p.confirmed.Or(0)),
         failed := Some(p.failed.Or(0)),
         expired := Some(p.expired.Or(0)))
    else
      p.(day := Some(today), spent := Some(0), reserved := Some(0), submitted := Some(0),
         confirmed := Some(0), failed := Some(0), expired := Some(0))
  }

  function Reserve(p: Policy, today: string, n: nat): Policy {
    var q := Reset(p, today);
    var held := q.reserved.Or(q.spent.Or(0)) + n;
    q.(reserved := Some(held), spent := Some(held))
  }

  /** The source gives up to what it has, the target takes the whole amount. */
  function Transferred(q: Policy, n: nat, from: Bucket, to: Bucket): Policy {
    var q1 := q.WithField(from, Monus(q.Field(from).Or(0), n));
    q1.WithField(to, q1.Field(to).Or(0) + n)
  }

  function Move(p: Policy, today: string, n: nat, from: Bucket, to: Bucket): Policy {
    var q := Transferred(Reset(p, today), n, from, to);
    q.(spent := Some(q.Locked(today)))
  }

  // ----- the summary handed to the preflight check and to the simulator

  datatype Summary = Summary(
    reserved: nat, submitted: nat, confirmed: nat, failed: nat, expired: nat,
    totalLocked: nat, remainingToday: Option<nat>)

  function Summarize(p: Policy, today: string): Summary {
    if p.day != Some(today) then
      Summary(0, 0, 0, 0, 0, 0, p.dailyLimit)
    else
      var reserved, submitted, confirmed := p.reserved.Or(p.spent.Or(0)), p.submitted.Or(0), p.confirmed.Or(0);
      var locked := reserved + submitted + confirmed;
      Summary(reserved, submitted, confirmed, p.failed.Or(0), p.expired.Or(0), locked,
        if p.dailyLimit.None? then None
        else Some(if p.dailyLimit.value - locked < 0 then 0 else p.dailyLimit.value - locked))
  }

  /** The summary reports what the buckets hold, and as remaining what the limit leaves above the locked amount. */
  lemma SummaryReadsBuckets(p: Policy, today: string)
    ensures var s := Summarize(p, today);
            && s.reserved == p.Held(today, Reserved) && s.submitted == p.Held(today, Submitted)
            && s.confirmed == p.Held(today, Confirmed) && s.failed == p.Held(today, Failed) && s.expired == p.Held(today, Expired)
            && s.totalLocked == p.Locked(today)
            && s.remainingToday == if p.dailyLimit.Some? then Some(Monus(p.dailyLimit.value, p.Locked(today))) else None
  {
  }

  // ----- laws of the rewrites

  /** Reading a record lazily gives what resetting it first and then reading it would give. */
  lemma LazyReadEqualsReset(p: Policy, today: string)
    ensures forall b :: Reset(p, today).Held(today, b) == p.Held(today, b)
    ensures Reset(p, today).Locked(today) == p.Locked(today)
    ensures Summarize(Reset(p, today), today) == Summarize(p, today)
  {
  }

  /** A reservation adds its amount to the reserved bucket and touches no other. */
  lemma ReserveHolds(p: Policy, today: string, n: nat)
    ensures forall b :: Reserve(p, today, n).Held(today, b) == p.Held(today, b) + (if b == Reserved then n else 0)
  {
  }

  /** A bucket after a move: the source gives what it has, the target takes the full amount. */
  function Moved(held: nat, n: nat, isFrom: bool, isTo: bool): nat {
    (if isFrom then Monus(held, n) else held) + (if isTo then n else 0)
  }

  lemma WithFieldHolds(q: Policy, today: string, b: Bucket, value: nat, c: Bucket)
    requires q.day == Some(today)
    ensures q.WithField(b, value).Held(today, c) == if c == b then value else q.Held(today, c)
    ensures q.WithField(b, value).day == q.day
    ensures q.reserved.Some? ==> q.WithField(b, value).reserved.Some?
  {
  }

  lemma FieldIsHeld(q: Policy, today: string, b: Bucket)
    requires q.day == Some(today) && q.reserved.Some?
    ensures q.Field(b).Or(0) == q.Held(today, b)
  {
  }

  lemma TransferredHolds(q: Policy, today: string, n: nat, from: Bucket, to: Bucket, b: Bucket)
    requires q.day == Some(today) && q.reserved.Some?
    ensures Transferred(q, n, from, to).Held(today, b) == Moved(q.Held(today, b), n, b == from, b == to)
    ensures Transferred(q, n, from, to).reserved.Some?
  {
    hide Policy.Held, Policy.Field, Policy.WithField;
    FieldIsHeld(q, today, from);
    var left := Monus(q.Field(from).Or(0), n);
    var q1 := q.WithField(from, left);
    WithFieldHolds(q, today, from, left, to);
    WithFieldHolds(q, today, from, left, b);
    FieldIsHeld(q1, today, to);
    WithFieldHolds(q1, today, to, q1.Field(to).Or(0) + n, b);
  }

  lemma MoveHolds(p: Policy, today: string, n: nat, from: Bucket, to: Bucket, b: Bucket)
    ensures Move(p, today, n, from, to).Held(today, b) == Moved(p.Held(today, b), n, b == from, b == to)
  {
    hide Policy.Held, Transferred;
    LazyReadEqualsReset(p, today);
    TransferredHolds(Reset(p, today), today, n, from, to, b);
    SpentIsUnread(Transferred(Reset(p, today), n, from, to), today, b);
  }

  /** Once the reserved bucket is present, the mirrored `spentToday` field is never read. */
  lemma SpentIsUnread(q: Policy, today: string, b: Bucket)
    requires q.reserved.Some?
    ensures forall s :: q.(spent := s).Held(today, b) == q.Held(today, b)
  {
  }

  /** The sum of all buckets grows by exactly the part of the amount that the source bucket did not hold. */
  lemma MoveTotal(p: Policy, today: string, n: nat, from: Bucket, to: Bucket)
    ensures Move(p, today, n, from, to).Total(today) == p.Total(today) + Monus(n, p.Held(today, from))
  {
    hide Move, Policy.Held;
    var taken := n - Monus(n, p.Held(today, from));
    forall b
      ensures Move(p, today, n, from, to).Held(today, b) ==
              p.Held(today, b) - (if b == from then taken else 0) + (if b == to then n else 0)
    {
      MoveHolds(p, today, n, from, to, b);
    }
  }

  // ----- admission, in its three copies

  /** The signer's own check before it decrypts the key. */
  predicate SignerAdmits(p: Policy, today: string, n: nat) {
    n <= p.maxAmount && (p.dailyLimit.Some? ==> p.Locked(today) + n <= p.dailyLimit.value)
  }

  datatype Violation = NotEnabled | OverMaxAmount | OverRemaining

  /** The low-value part of the transfer preflight. */
  method PreflightLowValue(p: Policy, today: string, n: nat) returns (violations: seq<Violation>)
    requires p.enabled
    ensures n > 0 ==> (violations == [] <==> SignerAdmits(p, today, n))
    ensures n == 0 ==> violations == []
  {
    var accounting := Summarize(p, today);
    violations := [];
    if n > p.maxAmount {
      violations := violations + [OverMaxAmount];
    }
    if accounting.remainingToday.Some? && n > accounting.remainingToday.value {
      violations := violations + [OverRemaining];
    }
  }

  /** The policy simulator, for a LYTH amount on a wallet without agent restrictions. */
  method SimulateHotWalletPolicy(p: Policy, today: string, n: nat) returns (ok: bool, violations: seq<Violation>)
    ensures ok <==> violations == []
    ensures !p.enabled ==> violations == [NotEnabled]
    ensures p.enabled && n > 0 ==> (ok <==> SignerAdmits(p, today, n))
    ensures p.enabled && n == 0 ==> ok
  {
    var accounting := Summarize(p, today);
    violations := [];
    if !p.enabled {
      violations := violations + [NotEnabled];
    } else {
      if n > p.maxAmount {
        violations := violations + [OverMaxAmount];
      }
      var remaining := accounting.remainingToday;
      if remaining.Some? {
        if n > remaining.value {
          violations := violations + [OverRemaining];
        }
      }
    }
    ok := violations == [];
  }

  /** Only the signer can refuse a zero amount, and it does so exactly when more than the limit is already locked. */
  lemma ZeroAmountDiffers(p: Policy, today: string)
    ensures SignerAdmits(p, today, 0) <==> (p.dailyLimit.Some? ==> Summarize(p, today).totalLocked <= p.dailyLimit.value)
  {
  }

  /** Two units are locked under a limit that was lowered to one afterwards. */
  function Overdrawn(today: string): Policy {
    Policy(true, 5, Some(1), Some(today), Some(2), Some(2), Some(0), Some(0), Some(0), Some(0))
  }

  /** Such a policy is one on which the signer refuses a zero amount that the preflight and the simulator accept. */
  method ZeroAmountShows(today: string) returns (preflight: seq<Violation>, ok: bool, violations: seq<Violation>)
    ensures preflight == [] && ok && violations == []
    ensures !SignerAdmits(Overdrawn(today), today, 0)
  {
    preflight := PreflightLowValue(Overdrawn(today), today, 0);
    ok, violations := SimulateHotWalletPolicy(Overdrawn(today), today, 0);
  }

  /** An admitted spend lowers the remaining allowance by exactly its amount, and the limit is not overdrawn. */
  lemma AdmittedSpend(p: Policy, today: string, n: nat)
    requires SignerAdmits(p, today, n) && p.dailyLimit.Some?
    ensures Summarize(Reserve(p, today, n), today).remainingToday.value ==
            Summarize(p, today).remainingToday.value - n
    ensures Reserve(p, today, n).Locked(today) == p.Locked(today) + n <= p.dailyLimit.value
  {
    ReserveHolds(p, today, n);
  }
}
