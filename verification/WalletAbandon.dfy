/** What a command that fails leaves behind: exactly when a live process is left with an active record it no longer works on. */
module WalletAbandon {
  import opened Options
  import opened WalletStores
  import opened WalletMachine
  import opened WalletSteps
  import opened WalletRuns
  import opened WalletRepair
  import opened WalletSchedules

  /** The record is active and its owner is alive, but works on it no longer: every repair is busy until that process ends. */
  predicate Stuck(st: State) {
    var l := st.stores.lifecycle;
    && l.Some? && l.value.Provisioning? && l.value.active && l.value.owner in st.procs
    && Owned(Position(st.procs[l.value.owner])) != Some(l.value.id)
  }

  /** An active record of a process that is no longer alive. */
  predicate Deserted(st: State, p: nat) {
    var l := st.stores.lifecycle;
    l.Some? && l.value.Provisioning? && l.value.active && l.value.owner == p && p !in st.procs
  }

  /**
   The events that leave a live process such a record: the record is put in place but its creation reports a failure;
   the read of an abandonment fails, or its write fails before taking effect; a late write brings the record of a live
   process back; or a new process gets the number of the one that crashed.
   */
  predicate LeavesActive(st: State, event: Event) {
    match event
    case SpawnCreate(p, id) => Fresh(st, id) && Deserted(st, p)
    case SpawnRepair(p) => Deserted(st, p)
    case Crash(_) => false
    case Run(p, ch) =>
      p in st.procs &&
      match st.procs[p]
      case CreateBegin(_) => st.stores.lifecycle.None? && ch.fault.FailAfter?
      case OrphanBegin(_, _) => st.stores.lifecycle.None? && ch.fault.FailAfter?
      case Abandon(_, _) => st.stores.lifecycle.Some? && st.stores.lifecycle.value.Provisioning? && !ch.fault.NoFault?
      case Writing(Abandon(_, _), _) => ch.fault.FailBefore?
      case Writing(ResumeSet(_, _), record) =>
        record.Some? && record.value.Provisioning? && record.value.active && record.value.owner in st.procs && !ch.fault.FailBefore?
      case _ => false
  }

  // ----- abandoning

  /** The write of an abandonment that takes effect leaves the same record, inactive. */
  lemma AbandonDeactivates(derive: Seed -> Address, s: Stores, alive: set<nat>, p: nat, id: Id, code: Code,
                           record: Option<Lifecycle>, ch: Choice)
    requires ProcInv(derive, s, p, Writing(Abandon(id, code), record)) && !ch.fault.FailBefore?
    ensures Matches(s.lifecycle, id)
    ensures var c := Step(derive, s, alive, p, Writing(Abandon(id, code), record), ch);
            c.stores == s.(lifecycle := Some(s.lifecycle.value.(active := false))) && c.proc == Stop(code)
  {
  }

  /** The read of an abandonment that works goes on to the write, unless the lifecycle is configured by now. */
  lemma AbandonReads(derive: Seed -> Address, s: Stores, alive: set<nat>, p: nat, id: Id, code: Code, ch: Choice)
    requires ProcInv(derive, s, p, Abandon(id, code))
    ensures s.lifecycle.Some?
    ensures var c := Step(derive, s, alive, p, Abandon(id, code), ch);
            && c.stores == s
            && (c.proc.Writing? <==> ch.fault.NoFault? && s.lifecycle.value.Provisioning?)
            && (c.proc.Writing? ==> c.proc.at == Abandon(id, code)) && (!c.proc.Writing? ==> c.proc == Stop(code))
  {
  }

  // ----- one event

  /** The accesses after which the process still works on what it owned, or the lifecycle is no longer active under it. */
  lemma OwnerGoesOn(derive: Seed -> Address, s: Stores, alive: set<nat>, p: nat, proc: Proc, ch: Choice)
    requires ProcInv(derive, s, p, proc) && Owned(Position(proc)).Some?
    requires !Position(proc).Abandon?
    ensures var c := Step(derive, s, alive, p, proc, ch);
            || Owned(Position(c.proc)) == Owned(Position(proc))
            || (c.stores.lifecycle.Some? && c.stores.lifecycle.value.Configured?)
    ensures var c := Step(derive, s, alive, p, proc, ch);
            c.stores.lifecycle.Some? && c.stores.lifecycle.value.Provisioning? ==>
              LifecycleId(c.stores) == LifecycleId(s) && c.stores.lifecycle.value.owner == p
  {
  }

  /** A process that owns no record neither gets one nor touches the lifecycle, unless it begins or writes. */
  lemma BystanderLooks(derive: Seed -> Address, s: Stores, alive: set<nat>, p: nat, proc: Proc, ch: Choice)
    requires Owned(Position(proc)).None? && !proc.Writing? && !proc.CreateBegin? && !proc.OrphanBegin?
    ensures var c := Step(derive, s, alive, p, proc, ch);
            c.stores.lifecycle == s.lifecycle && Owned(Position(c.proc)).None?
  {
  }

  /** What is written over a record by a process that does not own it. */
  lemma BystanderWrites(derive: Seed -> Address, s: Stores, alive: set<nat>, p: nat, proc: Proc, ch: Choice)
    requires ProcInv(derive, s, p, proc) && Owned(Position(proc)).None? && proc.Writing?
    ensures Owned(Position(Step(derive, s, alive, p, proc, ch).proc)).None?
    ensures
      var l := Step(derive, s, alive, p, proc, ch).stores.lifecycle;
      if ch.fault.FailBefore? then l == s.lifecycle
      else l == proc.record && (l.Some? && l.value.Provisioning? ==> proc.at == ResumeSet(l.value.id, proc.at.address))
  {
  }

  lemma OwnerLeavesIff(derive: Seed -> Address, st: State, p: nat, ch: Choice)
    requires Inv(derive, st) && !Stuck(st) && p in st.procs && Owned(Position(st.procs[p])).Some?
    ensures Stuck(Apply(derive, st, Run(p, ch))) <==> LeavesActive(st, Run(p, ch))
  {
    var proc := st.procs[p];
    assert ProcInv(derive, st.stores, p, proc);
    OwnsTheRecord(derive, st.stores, p, proc);
    if Position(proc).Abandon? {
      AbandonLeavesIff(derive, st, p, ch);
    } else {
      OwnerGoesOn(derive, st.stores, st.procs.Keys, p, proc, ch);
      hide Inv, ProcInv, Step;
      assert !LeavesActive(st, Run(p, ch));
    }
  }

  lemma AbandonLeavesIff(derive: Seed -> Address, st: State, p: nat, ch: Choice)
    requires p in st.procs && Position(st.procs[p]).Abandon? && ProcInv(derive, st.stores, p, st.procs[p])
    requires LifecycleId(st.stores) == Owned(Position(st.procs[p]))
    requires st.stores.lifecycle.value.Provisioning? ==> st.stores.lifecycle.value.active && st.stores.lifecycle.value.owner == p
    ensures Stuck(Apply(derive, st, Run(p, ch))) <==> LeavesActive(st, Run(p, ch))
  {
    var proc, s, alive := st.procs[p], st.stores, st.procs.Keys;
    hide ProcInv, Step;
    if proc.Abandon? {
      AbandonReads(derive, s, alive, p, proc.id, proc.code, ch);
    } else if ch.fault.FailBefore? {
      AbandonFails(derive, s, alive, p, proc.at.id, proc.at.code, proc.record);
      assert ch == Choice(FailBefore, ch.random);
    } else {
      AbandonDeactivates(derive, s, alive, p, proc.at.id, proc.at.code, proc.record, ch);
    }
  }

  lemma AbandonFails(derive: Seed -> Address, s: Stores, alive: set<nat>, p: nat, id: Id, code: Code, record: Option<Lifecycle>)
    requires ProcInv(derive, s, p, Writing(Abandon(id, code), record))
    ensures Matches(s.lifecycle, id) && s.lifecycle.value.active && s.lifecycle.value.owner == p
    ensures forall r :: Step(derive, s, alive, p, Writing(Abandon(id, code), record), Choice(FailBefore, r)) == Config(s, Stop(code))
  {
  }

  lemma OwnsTheRecord(derive: Seed -> Address, s: Stores, p: nat, proc: Proc)
    requires ProcInv(derive, s, p, proc) && Owned(Position(proc)).Some?
    ensures LifecycleId(s) == Owned(Position(proc))
    ensures s.lifecycle.value.Provisioning? ==> s.lifecycle.value.active && s.lifecycle.value.owner == p
  {
  }

  lemma BystanderLeavesIff(derive: Seed -> Address, st: State, p: nat, ch: Choice)
    requires Inv(derive, st) && !Stuck(st) && p in st.procs && Owned(Position(st.procs[p])).None?
    ensures Stuck(Apply(derive, st, Run(p, ch))) <==> LeavesActive(st, Run(p, ch))
  {
    var proc, s, alive := st.procs[p], st.stores, st.procs.Keys;
    assert ProcInv(derive, s, p, proc);
    if proc.CreateBegin? || proc.OrphanBegin? {
      hide Inv, ProcInv;
    } else if proc.Writing? {
      assert IsUpdate(proc.at) && WriteInv(derive, s, proc.at, proc.record);
      BystanderWrites(derive, s, alive, p, proc, ch);
      if proc.at.ResumeSet? {
        NobodyOwns(derive, st, p);
      }
      hide Inv, ProcInv, Step;
    } else {
      BystanderLooks(derive, s, alive, p, proc, ch);
      hide Inv, ProcInv, Step;
    }
  }

  /** Nobody owns the record that a repair works on. */
  lemma NobodyOwns(derive: Seed -> Address, st: State, p: nat)
    requires Inv(derive, st) && p in st.procs && IsSetting(st.procs[p])
    ensures st.procs[p].record.Some? && st.procs[p].record.value.Provisioning?
    ensures forall q :: q in st.procs ==> Owned(Position(st.procs[q])) != Some(st.procs[p].record.value.id)
  {
    var proc := st.procs[p];
    assert ProcInv(derive, st.stores, p, proc) && Matches(proc.record, proc.at.id);
    forall q | q in st.procs ensures Owned(Position(st.procs[q])) != Some(proc.record.value.id) {
      if q != p {
        assert Compatible(st.procs[q], proc);
      }
    }
  }

  /** Exactly the listed events leave a live process an active record that it no longer works on. */
  lemma StuckIff(derive: Seed -> Address, st: State, event: Event)
    requires Inv(derive, st) && !Stuck(st)
    ensures Stuck(Apply(derive, st, event)) <==> LeavesActive(st, event)
  {
    hide Step;
    if event.Run? && event.p in st.procs {
      hide Inv, LeavesActive, Stuck;
      if Owned(Position(st.procs[event.p])).Some? {
        OwnerLeavesIff(derive, st, event.p, event.choice);
      } else {
        BystanderLeavesIff(derive, st, event.p, event.choice);
      }
    } else {
      hide Inv;
    }
  }

  // ----- whole runs

  predicate LeavesNothing(derive: Seed -> Address, st: State, events: seq<Event>) {
    events != [] ==>
      var last := |events| - 1;
      LeavesNothing(derive, st, events[..last]) && !LeavesActive(RunAll(derive, st, events[..last]), events[last])
  }

  /** On a guarded run without these events no live process is ever left with an active record. */
  lemma {:induction false} NeverStuck(derive: Seed -> Address, st: State, events: seq<Event>)
    requires Inv(derive, st) && !Stuck(st) && Guarded(derive, st, events) && LeavesNothing(derive, st, events)
    ensures !Stuck(RunAll(derive, st, events)) && Inv(derive, RunAll(derive, st, events))
  {
    hide Inv, Apply, Stuck, LeavesActive;
    if events != [] {
      var last := |events| - 1;
      NeverStuck(derive, st, events[..last]);
      EventKeepsInv(derive, RunAll(derive, st, events[..last]), events[last]);
      StuckIff(derive, RunAll(derive, st, events[..last]), events[last]);
    }
  }

  /**
   When all commands are over, failed or not, a repair does what a repair is for while every process is still alive, as
   long as none of these events happened.
   */
  lemma FailedCommandsAreRepaired(derive: Seed -> Address, st: State, events: seq<Event>, q: nat)
    requires Start(derive, st) && Guarded(derive, st, events) && LeavesNothing(derive, st, events)
    requires var procs := RunAll(derive, st, events).procs; forall p :: p in procs ==> procs[p].Finished?
    ensures var st' := RunAll(derive, st, events); Repairs(derive, st'.stores, st'.procs.Keys, q)
  {
    NeverStuck(derive, st, events);
    var st' := RunAll(derive, st, events);
    assert StoreInv(derive, st'.stores);
    hide RunAll, Guarded, LeavesNothing, Inv, Repairs;
    RepairMeetsSpec(derive, st'.stores, st'.procs.Keys, q);
  }

  /**
   From empty stores: the record of a creation is put in place, but that access reports a failure. Its process never
   abandons the record, and as long as it lives every repair is busy.
   */
  lemma BeginCanLeaveActive(derive: Seed -> Address, id: Id, q: nat) returns (events: seq<Event>)
    ensures var st := RunAll(derive, EMPTY, events);
            && Guarded(derive, EMPTY, events) && st.procs == map[0 := Stop(Unavailable)] && Stuck(st)
            && Undisturbed(derive, st.stores, st.procs.Keys, q, RepairRead, ACCESSES) == Config(st.stores, Stop(Busy))
  {
    hide Undisturbed;
    Stay(derive, EMPTY);
    events := GetsToBegin(derive, EMPTY, [], map[], 0, id);
    var e := Run(0, Choice(FailAfter, []));
    OneMore(derive, EMPTY, events, State(Stores(None, map[]), map[][0 := CreateBegin(id)]), e);
    events := events + [e];
    var st := State(Stores(Some(Begun(id, 0)), map[]), map[0 := Stop(Unavailable)]);
    assert map[][0 := CreateBegin(id)][0 := Stop(Unavailable)] == st.procs;
    RepairIsExact(derive, st.stores, st.procs.Keys, q);
  }
}
