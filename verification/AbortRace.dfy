/** A started operation raced against an abort signal: one settlement, whatever the order of events. */
module AbortRace {
  import opened Options

  datatype Outcome<T> = Resolved(value: T) | Rejected

  /**
   What can happen once the operation runs: the signal's flag is raised, its event is dispatched to the listener, the
   promise is fulfilled or rejected.
   */
  datatype Event<T> = Raise | Dispatch | Fulfil(value: T) | Reject

  /** How the operation begins: the signal may be raised before or during the start, and the start itself may throw. */
  datatype Start = AlreadyAborted | Throws | Runs(raisedMeanwhile: bool)

  datatype State<T> = State(
    raised: bool, listening: bool, pending: bool, finished: bool, outcome: Option<Outcome<T>>, aborts: nat, late: seq<T>)
  {
    /** A promise keeps its first settlement. */
    function Settle(o: Outcome<T>): State<T> {
      if outcome.Some? then this else this.(outcome := Some(o))
    }
  }

  // ----- the reactions

  function Aborted<T>(s: State<T>): State<T> {
    if s.finished then s else s.(finished := true, aborts := s.aborts + 1).Settle(Rejected)
  }

  function OnValue<T>(s: State<T>, value: T): State<T> {
    var s := s.(listening := false, pending := false);
    if s.finished || s.raised then s.(finished := true, late := s.late + [value]).Settle(Rejected)
    else s.(finished := true).Settle(Resolved(value))
  }

  function OnError<T>(s: State<T>): State<T> {
    var s := s.(listening := false, pending := false);
    if s.finished then s else s.(finished := true).Settle(Rejected)
  }

  function Begin<T>(start: Start): State<T> {
    match start
    case AlreadyAborted => State(true, false, false, true, Some(Rejected), 1, [])
    case Throws => State(false, false, false, true, Some(Rejected), 0, [])
    case Runs(raised) =>
      var s := State(raised, true, true, false, None, 0, []);
      if raised then Aborted(s) else s
  }

  /** The listener runs once; a promise reacts once. */
  function Step<T>(s: State<T>, e: Event<T>): State<T> {
    match e
    case Raise => s.(raised := true)
    case Dispatch => if s.raised && s.listening then Aborted(s.(listening := false)) else s
    case Fulfil(value) => if s.pending then OnValue(s, value) else s
    case Reject => if s.pending then OnError(s) else s
  }

  function Run<T>(start: Start, events: seq<Event<T>>): State<T> {
    if events == [] then Begin(start) else Step(Run(start, events[..|events| - 1]), events[|events| - 1])
  }

  // ----- the program

  class Race<T> {
    var raised: bool
    var listening: bool
    var pending: bool
    var finished: bool
    var outcome: Option<Outcome<T>>
    var aborts: nat
    var late: seq<T>

    ghost function Now(): State<T>
      reads this
    {
      State(raised, listening, pending, finished, outcome, aborts, late)
    }

    constructor (start: Start)
      ensures Now() == Begin(start)
    {
      raised, listening, pending, finished := false, false, false, false;
      outcome, aborts, late := None, 0, [];
      new;
      match start {
        case AlreadyAborted =>
          raised, finished, aborts, outcome := true, true, 1, Some(Rejected);
        case Throws =>
          finished, outcome := true, Some(Rejected);
        case Runs(raisedMeanwhile) =>
          raised, listening, pending := raisedMeanwhile, true, true;
          if raised {
            HandleAbort();
          }
      }
    }

    method Settle(o: Outcome<T>)
      modifies this`outcome
      ensures Now() == old(Now()).Settle(o)
    {
      if outcome.None? {
        outcome := Some(o);
      }
    }

    method HandleAbort()
      modifies this
      ensures Now() == Aborted(old(Now()))
    {
      if finished {
        return;
      }
      finished := true;
      aborts := aborts + 1;
      Settle(Rejected);
    }

    method HandleValue(value: T)
      modifies this
      ensures Now() == OnValue(old(Now()), value)
    {
      listening, pending := false, false;
      if finished || raised {
        finished := true;
        late := late + [value];
        Settle(Rejected);
        return;
      }
      finished := true;
      Settle(Resolved(value));
    }

    method HandleError()
      modifies this
      ensures Now() == OnError(old(Now()))
    {
      listening, pending := false, false;
      if finished {
        return;
      }
      finished := true;
      Settle(Rejected);
    }

    /** Any schedule of events. */
    method Play(events: seq<Event<T>>, ghost start: Start)
      requires Now() == Begin(start)
      modifies this
      ensures Now() == Run(start, events)
    {
      for i := 0 to |events|
        invariant Now() == Run(start, events[..i])
      {
        assert events[..i + 1][..i] == events[..i];
        match events[i] {
          case Raise => raised := true;
          case Dispatch =>
            if raised && listening {
              listening := false;
              HandleAbort();
            }
          case Fulfil(value) =>
            if pending {
              HandleValue(value);
            }
          case Reject =>
            if pending {
              HandleError();
            }
        }
      }
      assert events[..|events|] == events;
    }
  }

  // ----- what every schedule ends in

  predicate Settles<T>(e: Event<T>) {
    e.Fulfil? || e.Reject?
  }

  /** The position of the promise's settlement, the only one that counts. */
  function Settlement<T>(events: seq<Event<T>>): (r: Option<nat>)
    ensures match r
            case None => forall i :: 0 <= i < |events| ==> !Settles(events[i])
            case Some(i) => i < |events| && Settles(events[i]) && forall j :: 0 <= j < i ==> !Settles(events[j])
  {
    if events == [] then None
    else
      var n := |events| - 1;
      var before := Settlement(events[..n]);
      if before.Some? then before else if Settles(events[n]) then Some(n) else None
  }

  predicate RaisedWithin<T>(events: seq<Event<T>>, n: nat)
    requires n <= |events|
  {
    exists i :: 0 <= i < n && events[i].Raise?
  }

  /** The value the operation produced, if any. */
  function Produced<T>(start: Start, events: seq<Event<T>>): Option<T> {
    var at := Settlement(events);
    if start.Runs? && at.Some? && events[at.value].Fulfil? then Some(events[at.value].value) else None
  }

  /** Delivered exactly when the promise was fulfilled before the signal was raised. */
  predicate Delivers<T>(start: Start, events: seq<Event<T>>) {
    Produced(start, events).Some? && !start.raisedMeanwhile && !RaisedWithin(events, Settlement(events).value)
  }

  /** The signal reached the listener before the promise was settled. */
  ghost predicate Interrupted<T>(start: Start, events: seq<Event<T>>) {
    match start
    case AlreadyAborted => true
    case Throws => false
    case Runs(raisedMeanwhile) => raisedMeanwhile || exists d :: InterruptedAt(events, d)
  }

  predicate InterruptedAt<T>(events: seq<Event<T>>, d: nat) {
    && d < |events| && events[d].Dispatch? && RaisedWithin(events, d)
    && forall j :: 0 <= j < d ==> !Settles(events[j])
  }

  /** What the state has to be after a schedule, told without its steps. */
  ghost predicate Ends<T>(start: Start, events: seq<Event<T>>, s: State<T>) {
    var value := Produced(start, events);
    && s.aborts == (if Interrupted(start, events) then 1 else 0)
    && s.late == (if value.Some? && !Delivers(start, events) then [value.value] else [])
    && s.outcome == (if Delivers(start, events) then Some(Resolved(value.value))
                     else if Interrupted(start, events) || start.Throws? || Settlement(events).Some? then Some(Rejected)
                     else None)
  }

  lemma RaisedSnoc<T>(events: seq<Event<T>>, n: nat)
    requires events != [] && n < |events|
    ensures RaisedWithin(events, n) <==> RaisedWithin(events[..|events| - 1], n)
    ensures RaisedWithin(events, |events|) <==> RaisedWithin(events[..|events| - 1], |events| - 1) || events[|events| - 1].Raise?
  {
    assert forall i :: 0 <= i < |events| - 1 ==> events[..|events| - 1][i] == events[i];
  }

  lemma InterruptedSnoc<T>(start: Start, events: seq<Event<T>>)
    requires events != []
    ensures var n := |events| - 1;
            Interrupted(start, events) <==> Interrupted(start, events[..n]) || (start.Runs? && InterruptedAt(events, n))
  {
    var n := |events| - 1;
    forall d | 0 <= d < n ensures InterruptedAt(events, d) <==> InterruptedAt(events[..n], d) {
      RaisedSnoc(events, d);
    }
    if start.Runs? && exists d :: InterruptedAt(events[..n], d) {
      var d :| InterruptedAt(events[..n], d);
      assert InterruptedAt(events, d);
    }
  }

  /** The steps keep the flags in line with what happened. */
  ghost predicate Flags<T>(start: Start, events: seq<Event<T>>, s: State<T>) {
    if !start.Runs? then s.finished && !s.pending && !s.listening
    else
      && (s.raised <==> start.raisedMeanwhile || RaisedWithin(events, |events|))
      && (s.pending <==> Settlement(events).None?)
      && (s.finished <==> Interrupted(start, events) || Settlement(events).Some?)
      && (s.listening ==> s.pending)
      && (s.pending && !s.listening ==> Interrupted(start, events))
  }

  ghost predicate Ended<T>(start: Start, events: seq<Event<T>>, s: State<T>) {
    Ends(start, events, s) && Flags(start, events, s)
  }

  lemma SignalEnds<T>(start: Start, events: seq<Event<T>>, s: State<T>)
    requires events != [] && !Settles(events[|events| - 1]) && Ended(start, events[..|events| - 1], s)
    ensures Ended(start, events, Step(s, events[|events| - 1]))
  {
    RaisedSnoc(events, |events| - 1);
    InterruptedSnoc(start, events);
    InterruptedAtLast(events);
    SettlementSnoc(events);
    hide Interrupted, InterruptedAt, Settlement, RaisedWithin;
  }

  lemma PromiseEnds<T>(start: Start, events: seq<Event<T>>, s: State<T>)
    requires events != [] && Settles(events[|events| - 1]) && Ended(start, events[..|events| - 1], s)
    ensures Ended(start, events, Step(s, events[|events| - 1]))
  {
    RaisedSnoc(events, |events| - 1);
    InterruptedSnoc(start, events);
    InterruptedAtLast(events);
    SettlementSnoc(events);
    hide Interrupted, InterruptedAt, Settlement, RaisedWithin;
  }

  /**
   Whatever the schedule, the call settles at most once and for good, hands a produced value to the caller or to the late
   handler but never to both, and runs the abort handler at most once.
   */
  lemma {:induction false} RunEnds<T>(start: Start, events: seq<Event<T>>)
    ensures Ends(start, events, Run(start, events)) && Flags(start, events, Run(start, events))
  {
    if events == [] {
      assert !exists d :: InterruptedAt(events, d);
    } else {
      var n := |events| - 1;
      RunEnds(start, events[..n]);
      hide Ends, Flags, Step;
      if Settles(events[n]) {
        PromiseEnds(start, events, Run(start, events[..n]));
      } else {
        SignalEnds(start, events, Run(start, events[..n]));
      }
    }
  }

  lemma InterruptedAtLast<T>(events: seq<Event<T>>)
    requires events != []
    ensures var n := |events| - 1;
            InterruptedAt(events, n) <==> events[n].Dispatch? && RaisedWithin(events[..n], n) && Settlement(events[..n]).None?
  {
    var n := |events| - 1;
    RaisedSnoc(events, n);
    hide RaisedWithin;
    assert forall j :: 0 <= j < n ==> events[..n][j] == events[j];
  }

  lemma SettlementSnoc<T>(events: seq<Event<T>>)
    requires events != []
    ensures var n := |events| - 1;
            Settlement(events) == if Settlement(events[..n]).Some? then Settlement(events[..n])
                                  else if Settles(events[n]) then Some(n) else None
    ensures Settlement(events[..|events| - 1]).Some? ==>
              RaisedWithin(events, Settlement(events).value) == RaisedWithin(events[..|events| - 1], Settlement(events).value)
  {
    hide RaisedWithin;
    var n := |events| - 1;
    var before := Settlement(events[..n]);
    if before.Some? {
      assert events[..n][before.value] == events[before.value];
      RaisedSnoc(events, before.value);
    }
  }

  /** A call has settled exactly once it was refused, its promise settled or an abort reached it, and keeps its outcome. */
  lemma SettledForGood<T>(start: Start, events: seq<Event<T>>, more: Event<T>)
    ensures var s, s' := Run(start, events), Run(start, events + [more]);
            s.outcome.Some? ==> s'.outcome == s.outcome
    ensures Run(start, events).outcome.Some? <==> !start.Runs? || Settlement(events).Some? || Interrupted(start, events)
  {
    assert (events + [more])[..|events|] == events;
    RunEnds(start, events);
  }

  /** Once a value was produced it is either delivered or passed to the late handler, exactly once. */
  lemma DeliveredOrLate<T>(start: Start, events: seq<Event<T>>)
    ensures var s := Run(start, events);
            && s.aborts <= 1
            && match Produced(start, events)
               case None => s.late == [] && (s.outcome.None? || s.outcome == Some(Rejected))
               case Some(v) =>
                 || (s.outcome == Some(Resolved(v)) && s.late == [])
                 || (s.outcome == Some(Rejected) && s.late == [v])
  {
    RunEnds(start, events);
  }
}
