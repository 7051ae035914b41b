/**
 The stored low-value record: every bucket is a decimal text, and the handlers rewrite the fields in place. Each
 rewrite denotes the corresponding rewrite of LowValue, so the text ledger refines the one over units.
 */
module LowValueRecord {
  import opened Options
  import opened LowValue
  import opened Decimals

  /** The fields as stored. */
  datatype Record = Record(
    enabled: bool,
    maxAmount: string,
    dailyLimit: Option<string>,
    day: Option<string>,
    spent: Option<string>,
    reserved: Option<string>,
    submitted: Option<string>,
    confirmed: Option<string>,
    failed: Option<string>,
    expired: Option<string>)

  function UnitsOf(s: string): nat {
    match ParseUnits(s)
    case Units(n) => n
    case _ => 0
  }

  function Read(field: Option<string>): Option<nat> {
    if field.Some? then Some(UnitsOf(field.value)) else None
  }

  /** The daily limit; an empty text is no limit. */
  function ReadLimit(field: Option<string>): Option<nat> {
    if field.Or("") != "" then Some(UnitsOf(field.value)) else None
  }

  predicate Parses(field: Option<string>) {
    field.Some? ==> IsAmount(field.value)
  }

  /** Every stored amount parses; the policy setup checks it, and every rewrite keeps it. */
  predicate WellFormed(r: Record) {
    && IsAmount(r.maxAmount) && Parses(r.dailyLimit) && Parses(r.spent) && Parses(r.reserved) && Parses(r.submitted)
    && Parses(r.confirmed) && Parses(r.failed) && Parses(r.expired)
  }

  function Denote(r: Record): Policy {
    Policy(r.enabled, UnitsOf(r.maxAmount), ReadLimit(r.dailyLimit), r.day, Read(r.spent), Read(r.reserved), Read(r.submitted),
      Read(r.confirmed), Read(r.failed), Read(r.expired))
  }

  lemma ZeroText()
    ensures IsAmount("0") && UnitsOf("0") == 0
  {
    ParseZero();
  }

  lemma PrintedText(n: nat)
    ensures IsAmount(PrintUnits(n)) && UnitsOf(PrintUnits(n)) == n
  {
    hide PrintUnits;
    RoundTrip(n);
  }

  /** The answer of the signer's check; it throws in both of the other cases. */
  datatype Verdict = Admits | OverLimit | Unparsed

  class PolicyRecord {
    var enabled: bool
    var maxAmount: string
    var dailyLimit: Option<string>
    var day: Option<string>
    var spentToday: Option<string>
    var reservedToday: Option<string>
    var submittedToday: Option<string>
    var confirmedToday: Option<string>
    var failedToday: Option<string>
    var expiredToday: Option<string>

    function Snapshot(): Record
      reads this
    {
      Record(enabled, maxAmount, dailyLimit, day, spentToday, reservedToday, submittedToday, confirmedToday, failedToday,
        expiredToday)
    }

    constructor Load(r: Record)
      ensures Snapshot() == r
    {
      enabled, maxAmount, dailyLimit, day := r.enabled, r.maxAmount, r.dailyLimit, r.day;
      spentToday, reservedToday, submittedToday := r.spent, r.reserved, r.submitted;
      confirmedToday, failedToday, expiredToday := r.confirmed, r.failed, r.expired;
    }

    method ResetDayIfNeeded(today: string)
      requires WellFormed(Snapshot())
      modifies this
      ensures WellFormed(Snapshot()) && Denote(Snapshot()) == Reset(old(Denote(Snapshot())), today)
    {
      hide IsAmount, UnitsOf, LowValue.Policy.Held;
      ZeroText();
      if day == Some(today) {
        if reservedToday.None? { reservedToday := Some(spentToday.Or("0")); }
        if submittedToday.None? { submittedToday := Some("0"); }
        if confirmedToday.None? { confirmedToday := Some("0"); }
        if failedToday.None? { failedToday := Some("0"); }
        if expiredToday.None? { expiredToday := Some("0"); }
        return;
      }
      day := Some(today);
      spentToday := Some("0");
      reservedToday := Some("0");
      submittedToday := Some("0");
      confirmedToday := Some("0");
      failedToday := Some("0");
      expiredToday := Some("0");
    }

    method RecordSpend(today: string, n: nat)
      requires WellFormed(Snapshot())
      modifies this
      ensures WellFormed(Snapshot()) && Denote(Snapshot()) == Reserve(old(Denote(Snapshot())), today, n)
    {
      hide IsAmount, UnitsOf, PrintUnits;
      ZeroText();
      ResetDayIfNeeded(today);
      var current := UnitsOf(reservedToday.Or(spentToday.Or("0")));
      PrintedText(current + n);
      reservedToday := Some(PrintUnits(current + n));
      spentToday := reservedToday;
    }

    function Field(b: Bucket): Option<string>
      reads this
      ensures Read(Field(b)) == Denote(Snapshot()).Field(b)
    {
      match b
      case Reserved => reservedToday
      case Submitted => submittedToday
      case Confirmed => confirmedToday
      case Failed => failedToday
      case Expired => expiredToday
    }

    method Put(b: Bucket, text: string)
      requires WellFormed(Snapshot()) && IsAmount(text)
      modifies this
      ensures WellFormed(Snapshot()) && Denote(Snapshot()) == old(Denote(Snapshot())).WithField(b, UnitsOf(text))
    {
      hide IsAmount, UnitsOf;
      match b
      case Reserved => reservedToday := Some(text);
      case Submitted => submittedToday := Some(text);
      case Confirmed => confirmedToday := Some(text);
      case Failed => failedToday := Some(text);
      case Expired => expiredToday := Some(text);
    }

    method Debit(b: Bucket, n: nat)
      requires WellFormed(Snapshot())
      modifies this
      ensures WellFormed(Snapshot())
      ensures var p := old(Denote(Snapshot())); Denote(Snapshot()) == p.WithField(b, Monus(p.Field(b).Or(0), n))
    {
      hide IsAmount, UnitsOf, PrintUnits, LowValue.Policy.WithField;
      ZeroText();
      var fromValue := UnitsOf(Field(b).Or("0"));
      var left := if fromValue > n then fromValue - n else 0;
      PrintedText(left);
      Put(b, PrintUnits(left));
    }

    method Credit(b: Bucket, n: nat)
      requires WellFormed(Snapshot())
      modifies this
      ensures WellFormed(Snapshot())
      ensures var p := old(Denote(Snapshot())); Denote(Snapshot()) == p.WithField(b, p.Field(b).Or(0) + n)
    {
      hide IsAmount, UnitsOf, PrintUnits, LowValue.Policy.WithField;
      ZeroText();
      var toValue := UnitsOf(Field(b).Or("0"));
      PrintedText(toValue + n);
      Put(b, PrintUnits(toValue + n));
    }

    method MoveBetween(today: string, n: nat, from: Bucket, to: Bucket)
      requires WellFormed(Snapshot())
      modifies this
      ensures WellFormed(Snapshot()) && Denote(Snapshot()) == Move(old(Denote(Snapshot())), today, n, from, to)
    {
      hide IsAmount, UnitsOf, PrintUnits, LowValue.Reset, LowValue.Policy.WithField, LowValue.Policy.Held, LowValue.Policy.Field;
      ResetDayIfNeeded(today);
      Debit(from, n);
      Credit(to, n);
      var locked := LockedUnits(today);
      PrintedText(locked.value);
      spentToday := Some(PrintUnits(locked.value));
    }

    /** The texts that the locked amount is read from all parse: the legacy field stands in when `reserved` is absent. */
    predicate LockedParses()
      reads this
    {
      IsAmount(reservedToday.Or(spentToday.Or("0"))) && IsAmount(submittedToday.Or("0")) && IsAmount(confirmedToday.Or("0"))
    }

    /** The locked amount as read from the texts, nothing on another day; none when a text does not parse. */
    method LockedUnits(today: string) returns (locked: Option<nat>)
      ensures locked.None? <==> day == Some(today) && !LockedParses()
      ensures locked.Some? ==> locked.value == Denote(Snapshot()).Locked(today)
      ensures WellFormed(Snapshot()) ==> locked.Some?
    {
      hide UnitsOf, IsAmount;
      ZeroText();
      if day != Some(today) {
        return Some(0);
      }
      var reserved, submitted, confirmed := reservedToday.Or(spentToday.Or("0")), submittedToday.Or("0"), confirmedToday.Or("0");
      if !IsAmount(reserved) || !IsAmount(submitted) || !IsAmount(confirmed) {
        return None;
      }
      locked := Some(UnitsOf(reserved) + UnitsOf(submitted) + UnitsOf(confirmed));
    }

    /**
     The signer's check: the per-transfer cap, then the daily limit over what is already locked. The daily texts are read
     only when the cap allows the amount and there is a limit.
     */
    method AssertLowValueAllowed(today: string, n: nat) returns (verdict: Verdict)
      ensures verdict.Unparsed? <==>
                || !IsAmount(maxAmount)
                || (n <= UnitsOf(maxAmount) && dailyLimit.Or("") != ""
                    && (!IsAmount(dailyLimit.value) || (day == Some(today) && !LockedParses())))
      ensures !verdict.Unparsed? ==> (verdict.Admits? <==> SignerAdmits(Denote(Snapshot()), today, n))
      ensures WellFormed(Snapshot()) ==> !verdict.Unparsed?
    {
      hide UnitsOf, IsAmount;
      if !IsAmount(maxAmount) {
        return Unparsed;
      }
      if n > UnitsOf(maxAmount) {
        return OverLimit;
      }
      if dailyLimit.Or("") != "" {
        var locked := LockedUnits(today);
        if locked.None? || !IsAmount(dailyLimit.value) {
          return Unparsed;
        }
        if locked.value + n > UnitsOf(dailyLimit.value) {
          return OverLimit;
        }
      }
      return Admits;
    }
  }
}
