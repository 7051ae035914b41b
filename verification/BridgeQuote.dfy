/** Quotes for a bridge route: the guards of execution, the truncating fee, and the amount that arrives. */
module BridgeQuote {
  import opened Options
  import opened Decimals

  /** A basis-point number; one that is no integer cannot be converted and throws. */
  datatype Bps = Whole(bps: int) | NotAnInteger

  datatype Route = Route(
    status: string,
    routeType: string,
    feeToken: Option<string>,
    sourceAsset: string,
    destinationAsset: string,
    flatFee: Option<string>,
    bps: Option<Bps>,
    minAmount: Option<string>,
    maxAmount: Option<string>,
    drainRemaining: Option<string>,
    paused: bool,
    audits: nat,
    insurance: Option<string>)

  datatype Violation =
    | AssetNotOnRoute | NotActive | NotCcip | FeeTokenNotLink | CircuitBreakerPaused | BelowMinimum | AboveMaximum | AboveDrainCap

  datatype Warning = NoAudits | NoInsurance

  datatype Level = Low | Medium | High | Blocked

  datatype Error = InvalidAmount | TooPrecise | FractionalBps

  datatype Quote = Quote(
    executable: bool, fee: string, receive: string, level: Level, violations: seq<Violation>, warnings: seq<Warning>)

  datatype Result = Threw(error: Error) | Quoted(quote: Quote)

  /** An absent or empty text counts as not configured. */
  predicate Configured(t: Option<string>) {
    t.Some? && t.value != ""
  }

  // ----- fees in units

  /** Division of big integers drops the fraction, towards zero. */
  function TruncatingDiv(x: int, d: nat): int
    requires d > 0
  {
    if x >= 0 then x / d else -(-x / d)
  }

  function Variable(amount: nat, bps: int): int {
    TruncatingDiv(amount * bps, 10_000)
  }

  function Fee(amount: nat, flat: nat, bps: int): int {
    flat + Variable(amount, bps)
  }

  function Receive(amount: nat, flat: nat, bps: int): nat {
    var left := amount - Fee(amount, flat, bps);
    if left < 0 then 0 else left
  }

  /** The variable fee is the exact share with its fraction dropped, towards zero. */
  lemma VariableIsTruncated(amount: nat, bps: int)
    ensures bps >= 0 ==> 10_000 * Variable(amount, bps) <= amount * bps < 10_000 * (Variable(amount, bps) + 1)
    ensures bps <= 0 ==> 10_000 * (Variable(amount, bps) - 1) < amount * bps <= 10_000 * Variable(amount, bps)
  {
  }

  lemma ScaleMonotone(a: nat, b: nat, k: nat)
    requires a <= b
    ensures a * k <= b * k
  {
    assert b * k == a * k + (b - a) * k;
  }

  /** A fraction of at most one grows no faster than the amount; one of more than one leaves nothing. */
  lemma ShareGrowsSlower(a: nat, b: nat, bps: nat)
    requires a <= b && bps <= 10_000
    ensures b * bps / 10_000 - a * bps / 10_000 <= b - a
  {
    ScaleMonotone(bps, 10_000, b - a);
    assert b * bps == a * bps + (b - a) * bps;
    assert b * bps <= a * bps + (b - a) * 10_000;
  }

  /** A larger amount never yields less, whatever the fee. */
  lemma ReceiveIsMonotone(a: nat, b: nat, flat: nat, bps: int)
    requires a <= b
    ensures Receive(a, flat, bps) <= Receive(b, flat, bps)
  {
    if bps < 0 {
      assert a * bps == -(a * -bps) && b * bps == -(b * -bps);
      ScaleMonotone(a, b, -bps);
    } else if bps <= 10_000 {
      ShareGrowsSlower(a, b, bps);
    } else {
      ScaleMonotone(10_000, bps, a);
      assert a * bps >= a * 10_000;
    }
  }

  /** Splitting an amount changes the variable fee by at most one unit, and never raises it. */
  lemma VariableOfSum(a: nat, b: nat, bps: nat)
    ensures Variable(a, bps) + Variable(b, bps) <= Variable(a + b, bps) <= Variable(a, bps) + Variable(b, bps) + 1
  {
  }

  /** Nothing is created: what arrives and the fee make up the amount, as long as the fee does not exceed it. */
  lemma FeeAndReceive(amount: nat, flat: nat, bps: int)
    ensures Fee(amount, flat, bps) <= amount ==> Receive(amount, flat, bps) + Fee(amount, flat, bps) == amount
    ensures Receive(amount, flat, bps) == 0 <==> Fee(amount, flat, bps) >= amount
  {
  }

  // ----- guards

  /** What upper-casing does to a text is left to `upper`. */
  predicate IsLink(feeToken: Option<string>, upper: string -> string) {
    upper(Trim(feeToken.Or(""))) == "LINK"
  }

  function Asset(route: Route, asset: Option<string>, upper: string -> string): string {
    upper(asset.Or(route.sourceAsset))
  }

  predicate AllAmounts(route: Route) {
    forall t :: t in [route.minAmount, route.maxAmount, route.drainRemaining, route.flatFee] && Configured(t) ==> IsAmount(t.value)
  }

  function Flat(route: Route): nat
    requires AllAmounts(route)
  {
    if Configured(route.flatFee) then
      assert route.flatFee in [route.minAmount, route.maxAmount, route.drainRemaining, route.flatFee];
      ParseUnits(route.flatFee.value).n
    else 0
  }

  function FirstBoundError(route: Route): Option<Error> {
    if Fails(route.minAmount) then Some(Failure(route.minAmount.value))
    else if Fails(route.maxAmount) then Some(Failure(route.maxAmount.value))
    else if Fails(route.drainRemaining) then Some(Failure(route.drainRemaining.value))
    else None
  }

  /** The first conversion that fails, in the order in which they are made. */
  function FirstError(route: Route, amount: string): (r: Option<Error>)
    ensures r.None? ==> IsAmount(amount) && AllAmounts(route) && (route.bps.Some? ==> route.bps.value.Whole?)
    ensures r.None? ==> Fee(ParseUnits(amount).n, Flat(route), BpsOf(route)) >= 0
  {
    if !IsAmount(amount) then Some(Failure(amount))
    else if FirstBoundError(route).Some? then FirstBoundError(route)
    else if Fails(route.flatFee) then Some(Failure(route.flatFee.value))
    else if route.bps == Some(NotAnInteger) then Some(FractionalBps)
    else if Fee(ParseUnits(amount).n, Flat(route), BpsOf(route)) < 0 then Some(InvalidAmount)
    else None
  }

  function BpsOf(route: Route): int {
    if route.bps.Some? && route.bps.value.Whole? then route.bps.value.bps else 0
  }

  predicate Fails(t: Option<string>) {
    Configured(t) && !IsAmount(t.value)
  }

  function Failure(t: string): Error
    requires !IsAmount(t)
  {
    if ParseUnits(t).InvalidDecimal? then InvalidAmount else TooPrecise
  }

  /** A guard or bound of the route that an amount does not meet. */
  ghost predicate Violated(route: Route, amount: nat, asset: string, upper: string -> string, v: Violation) {
    match v
    case AssetNotOnRoute => asset != upper(route.sourceAsset) && asset != upper(route.destinationAsset)
    case NotActive => route.status != "active"
    case NotCcip => route.routeType != "chainlink_ccip"
    case FeeTokenNotLink => upper(Trim(if route.feeToken.Some? then route.feeToken.value else "")) != "LINK"
    case CircuitBreakerPaused => route.paused
    case BelowMinimum => exists t, m :: route.minAmount == Some(t) && t != "" && ParseUnits(t) == Units(m) && amount < m
    case AboveMaximum => exists t, m :: route.maxAmount == Some(t) && t != "" && ParseUnits(t) == Units(m) && amount > m
    case AboveDrainCap => exists t, m :: route.drainRemaining == Some(t) && t != "" && ParseUnits(t) == Units(m) && amount > m
  }

  function Risk(route: Route, violations: seq<Violation>, warnings: seq<Warning>, upper: string -> string): Level {
    if |violations| > 0 then Blocked
    else if route.routeType != "chainlink_ccip" || !IsLink(route.feeToken, upper) then Blocked
    else if route.status == "degraded" then High
    else if |warnings| > 0 then Medium else Low
  }

  // ----- the quote

  /** The order in which violations are reported. */
  function Rank(v: Violation): nat {
    match v
    case AssetNotOnRoute => 0
    case NotActive => 1
    case NotCcip => 2
    case FeeTokenNotLink => 3
    case CircuitBreakerPaused => 4
    case BelowMinimum => 5
    case AboveMaximum => 6
    case AboveDrainCap => 7
  }

  /** Exactly the violated guards of a rank below `n`, each once and in order. */
  ghost predicate Lists(route: Route, amount: nat, asset: string, upper: string -> string, vs: seq<Violation>, n: nat) {
    && (forall v :: v in vs <==> Rank(v) < n && Violated(route, amount, asset, upper, v))
    && (forall i, j :: 0 <= i < j < |vs| ==> Rank(vs[i]) < Rank(vs[j]))
  }

  /** Pushes the next violation if its guard fails. */
  method Push(ghost route: Route, ghost amount: nat, ghost asset: string, ghost upper: string -> string,
              vs: seq<Violation>, v: Violation, violated: bool)
    returns (more: seq<Violation>)
    requires Lists(route, amount, asset, upper, vs, Rank(v)) && (violated <==> Violated(route, amount, asset, upper, v))
    ensures Lists(route, amount, asset, upper, more, Rank(v) + 1)
  {
    hide Violated;
    assert forall w :: Rank(w) == Rank(v) ==> w == v;
    assert forall i :: 0 <= i < |vs| ==> vs[i] in vs;
    more := if violated then vs + [v] else vs;
  }

  lemma NoneBelowZero(route: Route, amount: nat, asset: string, upper: string -> string)
    ensures Lists(route, amount, asset, upper, [], 0)
  {
  }

  /** The first five guards do not look at the amount. */
  method RouteViolations(route: Route, amount: nat, asset: string, upper: string -> string) returns (vs: seq<Violation>)
    ensures Lists(route, amount, asset, upper, vs, 5)
  {
    hide Lists;
    NoneBelowZero(route, amount, asset, upper);
    vs := Push(route, amount, asset, upper, [], AssetNotOnRoute,
               asset != upper(route.sourceAsset) && asset != upper(route.destinationAsset));
    vs := Push(route, amount, asset, upper, vs, NotActive, route.status != "active");
    vs := Push(route, amount, asset, upper, vs, NotCcip, route.routeType != "chainlink_ccip");
    vs := Push(route, amount, asset, upper, vs, FeeTokenNotLink, !IsLink(route.feeToken, upper));
    vs := Push(route, amount, asset, upper, vs, CircuitBreakerPaused, route.paused);
  }

  /** The bounds, each parsed when it is compared; the first that is no amount stops the quote. */
  method BoundViolations(route: Route, amount: nat, asset: string, upper: string -> string, violated: seq<Violation>)
    returns (vs: seq<Violation>, error: Option<Error>)
    requires Lists(route, amount, asset, upper, violated, 5)
    ensures error == FirstBoundError(route)
    ensures error.None? ==> Lists(route, amount, asset, upper, vs, 8)
  {
    hide Lists, IsLink, ParseUnits;
    vs, error := violated, None;
    if Fails(route.minAmount) {
      return vs, Some(Failure(route.minAmount.value));
    }
    vs := Push(route, amount, asset, upper, vs, BelowMinimum, Configured(route.minAmount) && amount < ParseUnits(route.minAmount.value).n);
    if Fails(route.maxAmount) {
      return vs, Some(Failure(route.maxAmount.value));
    }
    vs := Push(route, amount, asset, upper, vs, AboveMaximum, Configured(route.maxAmount) && amount > ParseUnits(route.maxAmount.value).n);
    if Fails(route.drainRemaining) {
      return vs, Some(Failure(route.drainRemaining.value));
    }
    vs := Push(route, amount, asset, upper, vs, AboveDrainCap,
               Configured(route.drainRemaining) && amount > ParseUnits(route.drainRemaining.value).n);
  }

  /** A route may be used for an amount: every guard and every bound holds. */
  ghost predicate Executable(route: Route, amount: nat, asset: string, upper: string -> string) {
    forall v :: !Violated(route, amount, asset, upper, v)
  }

  lemma ExecutableIffNoViolation(route: Route, amount: nat, asset: string, upper: string -> string, vs: seq<Violation>)
    requires Lists(route, amount, asset, upper, vs, 8)
    ensures Executable(route, amount, asset, upper) <==> |vs| == 0
  {
    hide Violated;
    assert |vs| > 0 ==> vs[0] in vs;
  }

  /** A configured text, or a zero. */
  function TextOrZero(t: Option<string>): string {
    if t.Some? && t.value != "" then t.value else "0"
  }

  /** The texts that a quote converts, in the order in which it converts them. */
  function Conversions(route: Route, amount: string): seq<string> {
    [amount, TextOrZero(route.minAmount), TextOrZero(route.maxAmount), TextOrZero(route.drainRemaining), TextOrZero(route.flatFee)]
  }

  /** The basis points of a route; absent ones are zero. */
  function Points(route: Route): Bps {
    if route.bps.Some? then route.bps.value else Whole(0)
  }

  /** `fee` units are the flat fee and the share of `b` ten-thousandths of `n`, its fraction dropped towards zero. */
  predicate IsFee(fee: nat, n: nat, f: nat, b: int) {
    var share := fee - f;
    if b >= 0 then 10_000 * share <= n * b < 10_000 * (share + 1) else 10_000 * (share - 1) < n * b <= 10_000 * share
  }

  /** What a quote promises about an amount of `n` units with a flat fee of `f` units and `b` basis points. */
  ghost predicate Promises(route: Route, n: nat, f: nat, b: int, asset: string, upper: string -> string, q: Quote) {
    && Lists(route, n, asset, upper, q.violations, 8)
    && (q.executable <==> Executable(route, n, asset, upper))
    && (q.executable <==> q.level != Blocked)
    && q.warnings == (if route.audits == 0 then [NoAudits] else [])
                   + (if route.insurance == None || route.insurance == Some("") then [NoInsurance] else [])
    && (q.level == Low <==> q.executable && q.warnings == [])
    && q.level != High
    && IsCanonical(q.fee) && IsCanonical(q.receive)
    && ParseUnits(q.fee).Units? && IsFee(ParseUnits(q.fee).n, n, f, b)
    && ParseUnits(q.receive) == Units(if n > ParseUnits(q.fee).n then n - ParseUnits(q.fee).n else 0)
  }

  predicate FirstBad(texts: seq<string>, i: nat) {
    i < |texts| && !ParseUnits(texts[i]).Units? && forall k :: 0 <= k < i ==> ParseUnits(texts[k]).Units?
  }

  /** How a quote comes out: the first conversion that fails, or a fee below zero, throws; otherwise it is as promised. */
  ghost predicate Answers(route: Route, amount: string, asset: Option<string>, upper: string -> string, r: Result) {
    var texts := Conversions(route, amount);
    && (forall i: nat :: FirstBad(texts, i) ==> r == Threw(if ParseUnits(texts[i]) == TooManyPlaces then TooPrecise else InvalidAmount))
    && ((forall k :: 0 <= k < 5 ==> ParseUnits(texts[k]).Units?) ==>
          match Points(route)
          case NotAnInteger => r == Threw(FractionalBps)
          case Whole(b) =>
            var n, f := ParseUnits(texts[0]).n, ParseUnits(texts[4]).n;
            if n * b <= -10_000 * (f + 1) then r == Threw(InvalidAmount)
            else
              r.Quoted? && Promises(route, n, f, b, upper(if asset.Some? then asset.value else route.sourceAsset), upper, r.quote))
  }

  lemma ConvertsIff(t: Option<string>)
    ensures ParseUnits(TextOrZero(t)).Units? <==> !Fails(t)
    ensures Configured(t) ==> TextOrZero(t) == t.value
    ensures !Configured(t) ==> ParseUnits(TextOrZero(t)) == Units(0)
  {
    ParseZero();
    hide ParseUnits;
  }

  lemma AllConvertIff(route: Route, amount: string)
    ensures var texts := Conversions(route, amount);
            && (ParseUnits(texts[0]).Units? <==> IsAmount(amount)) && (ParseUnits(texts[1]).Units? <==> !Fails(route.minAmount))
            && (ParseUnits(texts[2]).Units? <==> !Fails(route.maxAmount))
            && (ParseUnits(texts[3]).Units? <==> !Fails(route.drainRemaining))
            && (ParseUnits(texts[4]).Units? <==> !Fails(route.flatFee))
  {
    ConvertsIff(route.minAmount);
    ConvertsIff(route.maxAmount);
    ConvertsIff(route.drainRemaining);
    ConvertsIff(route.flatFee);
    hide ParseUnits, Fails;
  }

  /** A fee is refused as an amount exactly when the discount exceeds the flat fee by a whole unit. */
  lemma FeeIsExact(n: nat, f: nat, b: int)
    ensures Fee(n, f, b) < 0 <==> n * b <= -10_000 * (f + 1)
    ensures Fee(n, f, b) >= 0 ==> IsFee(Fee(n, f, b), n, f, b)
  {
    VariableIsTruncated(n, b);
  }

  lemma ErrorAnswers(route: Route, amount: string, asset: Option<string>, upper: string -> string, e: Error)
    requires FirstError(route, amount) == Some(e)
    ensures Answers(route, amount, asset, upper, Threw(e))
  {
    AllConvertIff(route, amount);
    ConvertsIff(route.flatFee);
    hide ParseUnits, Fee, TextOrZero, Promises;
    var texts := Conversions(route, amount);
    if forall k :: 0 <= k < 5 ==> ParseUnits(texts[k]).Units? {
      assert ParseUnits(texts[0]).Units? && ParseUnits(texts[1]).Units? && ParseUnits(texts[2]).Units?
          && ParseUnits(texts[3]).Units? && ParseUnits(texts[4]).Units?;
      if Points(route).Whole? {
        assert ParseUnits(texts[4]).n == Flat(route);
        FeeIsExact(ParseUnits(amount).n, Flat(route), BpsOf(route));
      }
    }
    forall i: nat | FirstBad(texts, i)
      ensures Threw(e) == Threw(if ParseUnits(texts[i]) == TooManyPlaces then TooPrecise else InvalidAmount)
    {
      FirstBadError(route, amount, i);
    }
  }

  lemma FirstBadError(route: Route, amount: string, i: nat)
    requires FirstBad(Conversions(route, amount), i)
    ensures FirstError(route, amount) ==
            Some(if ParseUnits(Conversions(route, amount)[i]) == TooManyPlaces then TooPrecise else InvalidAmount)
  {
    AllConvertIff(route, amount);
    var texts := Conversions(route, amount);
    hide ParseUnits, Fee;
    assert i > 0 ==> ParseUnits(texts[0]).Units?;
    assert i > 1 ==> ParseUnits(texts[1]).Units?;
    assert i > 2 ==> ParseUnits(texts[2]).Units?;
    assert i > 3 ==> ParseUnits(texts[3]).Units?;
  }

  lemma RiskOfQuote(route: Route, n: nat, asset: string, upper: string -> string, vs: seq<Violation>, warnings: seq<Warning>)
    requires Lists(route, n, asset, upper, vs, 8)
    ensures var level := Risk(route, vs, warnings, upper);
            && (|vs| == 0 <==> level != Blocked) && level != High && (level == Low <==> |vs| == 0 && |warnings| == 0)
  {
    if |vs| == 0 {
      assert !Violated(route, n, asset, upper, NotActive);
      assert !Violated(route, n, asset, upper, NotCcip);
      assert !Violated(route, n, asset, upper, FeeTokenNotLink);
    }
  }

  /**
   A quote throws with the first conversion that fails, and otherwise reports exactly the violated guards, is executable
   and not blocked exactly when there are none, and states the fee and what remains of the amount, floored at zero.
   */
  method QuoteBridgeRoute(route: Route, amount: string, asset: Option<string>, upper: string -> string) returns (r: Result)
    ensures Answers(route, amount, asset, upper, r)
  {
    hide Answers, PrintUnits, ParseUnits, Lists, Executable, Risk, Fee, Violated, IsLink;
    if !IsAmount(amount) {
      ErrorAnswers(route, amount, asset, upper, Failure(amount));
      return Threw(Failure(amount));
    }
    var n, on := ParseUnits(amount).n, Asset(route, asset, upper);
    var violations := RouteViolations(route, n, on, upper);
    var error;
    violations, error := BoundViolations(route, n, on, upper, violations);
    if error.Some? {
      ErrorAnswers(route, amount, asset, upper, error.value);
      return Threw(error.value);
    }
    var warnings: seq<Warning> := [];
    if route.audits == 0 {
      warnings := warnings + [NoAudits];
    }
    if !Configured(route.insurance) {
      warnings := warnings + [NoInsurance];
    }
    if Fails(route.flatFee) {
      ErrorAnswers(route, amount, asset, upper, Failure(route.flatFee.value));
      return Threw(Failure(route.flatFee.value));
    }
    if route.bps == Some(NotAnInteger) {
      ErrorAnswers(route, amount, asset, upper, FractionalBps);
      return Threw(FractionalBps);
    }
    var units := Fee(n, Flat(route), BpsOf(route));
    var fee := PrintUnits(units);
    FeeText(units);
    if !IsAmount(fee) {
      ErrorAnswers(route, amount, asset, upper, InvalidAmount);
      return Threw(Failure(fee));
    }
    var left := Receive(n, Flat(route), BpsOf(route));
    var quote := Quote(|violations| == 0, fee, PrintUnits(left), Risk(route, violations, warnings, upper), violations, warnings);
    QuoteAnswers(route, amount, asset, upper, quote);
    return Quoted(quote);
  }

  lemma QuoteAnswers(route: Route, amount: string, asset: Option<string>, upper: string -> string, q: Quote)
    requires FirstError(route, amount).None?
    requires var n := ParseUnits(amount).n; Computed(route, n, Fee(n, Flat(route), BpsOf(route)), Asset(route, asset, upper), upper, q)
    ensures Answers(route, amount, asset, upper, Quoted(q))
  {
    hide ParseUnits, Fee, Computed, Promises, IsFee;
    var n, f, b, on := ParseUnits(amount).n, Flat(route), BpsOf(route), Asset(route, asset, upper);
    ConvertsIff(route.flatFee);
    FeeIsExact(n, f, b);
    QuotePromises(route, n, f, b, Fee(n, f, b), on, upper, q);
    assert b == if route.bps.Some? then route.bps.value.bps else 0;
    hide FirstError;
    forall i: nat | FirstBad(Conversions(route, amount), i) ensures false {
      FirstBadError(route, amount, i);
    }
  }

  /** The quote as it is put together. */
  ghost predicate Computed(route: Route, n: nat, fee: nat, on: string, upper: string -> string, q: Quote) {
    && q.fee == PrintUnits(fee) && q.receive == PrintUnits(if n > fee then n - fee else 0)
    && Lists(route, n, on, upper, q.violations, 8) && (q.executable <==> |q.violations| == 0)
    && q.warnings == (if route.audits == 0 then [NoAudits] else []) + (if Configured(route.insurance) then [] else [NoInsurance])
    && q.level == Risk(route, q.violations, q.warnings, upper)
  }

  lemma QuotePromises(route: Route, n: nat, f: nat, b: int, fee: nat, on: string, upper: string -> string, q: Quote)
    requires Computed(route, n, fee, on, upper, q) && IsFee(fee, n, f, b)
    ensures Promises(route, n, f, b, on, upper, q)
  {
    hide ParseUnits, PrintUnits, IsCanonical, Lists, Executable, Risk, IsFee;
    FeeText(fee);
    FeeText(if n > fee then n - fee else 0);
    ExecutableIffNoViolation(route, n, on, upper, q.violations);
    RiskOfQuote(route, n, on, upper, q.violations, q.warnings);
  }

  /** A fee below zero is printed with a sign and then refused as an amount. */
  lemma FeeText(units: int)
    ensures units < 0 ==> ParseUnits(PrintUnits(units)) == InvalidDecimal
    ensures units >= 0 ==> ParseUnits(PrintUnits(units)) == Units(units) && IsCanonical(PrintUnits(units))
  {
    if units < 0 {
      NegativeRefused(units);
    } else {
      RoundTrip(units);
      PrintIsCanonical(units);
    }
  }
}
