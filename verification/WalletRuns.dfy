/** What whole runs of interleaved administrators keep, and exactly which creations endanger it. */
module WalletRuns {
  import opened Options
  import opened WalletStores
  import opened WalletMachine
  import opened WalletSteps

  /** Both stores empty, or one valid seed and no lifecycle, and nothing running. */
  ghost predicate Start(derive: Seed -> Address, st: State) {
    && st.procs == map[] && st.stores.lifecycle.None?
    && (forall i :: i in st.stores.seeds ==> ValidSeed(derive, st.stores.seeds[i]))
    && (forall i, j :: i in st.stores.seeds && j in st.stores.seeds ==> i == j)
  }

  // ----- guarded runs

  lemma RunKeepsInv(derive: Seed -> Address, st: State, p: nat, ch: Choice)
    requires Inv(derive, st) && p in st.procs && !(Begins(st, Run(p, ch)) && Clearing(st))
    ensures Inv(derive, Apply(derive, st, Run(p, ch)))
    ensures SeedsKept(st.stores, Apply(derive, st, Run(p, ch)).stores)
  {
    hide Step, StoreInv, ProcInv, Compatible;
    var alive, proc := st.procs.Keys, st.procs[p];
    var c := Step(derive, st.stores, alive, p, proc, ch);
    StepKeepsStores(derive, st.stores, alive, p, proc, ch);
    StepKeepsSelf(derive, st.stores, alive, p, proc, ch);
    forall q | q in st.procs && q != p
      ensures ProcInv(derive, c.stores, q, st.procs[q])
      ensures Compatible(c.proc, st.procs[q]) && Compatible(st.procs[q], c.proc)
    {
      StepKeepsOther(derive, st.stores, alive, p, proc, ch, q, st.procs[q]);
      StepKeepsCompatible(derive, st.stores, alive, p, proc, ch, q, st.procs[q]);
    }
  }

  lemma SpawnKeepsInv(derive: Seed -> Address, st: State, event: Event)
    requires Inv(derive, st) && !event.Run?
    ensures Inv(derive, Apply(derive, st, event)) && Apply(derive, st, event).stores == st.stores
  {
    hide StoreInv;
    var st' := Apply(derive, st, event);
    if st' != st {
      forall q | q in st'.procs ensures ProcInv(derive, st.stores, q, st'.procs[q]) {}
      forall q, r | q in st'.procs && r in st'.procs && q != r ensures Compatible(st'.procs[q], st'.procs[r]) {
        if q != event.p && r != event.p {
          assert Compatible(st.procs[q], st.procs[r]);
        }
      }
    }
  }

  lemma EventKeepsInv(derive: Seed -> Address, st: State, event: Event)
    requires Inv(derive, st) && !(Begins(st, event) && Clearing(st))
    ensures Inv(derive, Apply(derive, st, event)) && SeedsKept(st.stores, Apply(derive, st, event).stores)
  {
    hide Inv, Step;
    if event.Run? {
      if event.p in st.procs {
        RunKeepsInv(derive, st, event.p, event.choice);
      }
    } else {
      SpawnKeepsInv(derive, st, event);
    }
  }

  /**
   Whatever the administrators do, in any interleaving and with any failures and crashes, the invariant and the seeds
   stay, as long as no creation begins inside a clearing.
   */
  lemma {:induction false} RunAllKeepsInv(derive: Seed -> Address, st: State, events: seq<Event>)
    requires Inv(derive, st) && Guarded(derive, st, events)
    ensures Inv(derive, RunAll(derive, st, events))
    ensures SeedsKept(st.stores, RunAll(derive, st, events).stores)
  {
    hide Inv, Apply;
    if events != [] {
      var last := |events| - 1;
      RunAllKeepsInv(derive, st, events[..last]);
      EventKeepsInv(derive, RunAll(derive, st, events[..last]), events[last]);
    }
  }

  lemma AtMostOne(derive: Seed -> Address, s: Stores)
    requires StoreInv(derive, s)
    ensures |s.seeds| <= 1
    ensures forall i :: i in s.seeds ==> s.seeds.Keys == {i}
  {
    if i :| i in s.seeds {
      assert s.seeds.Keys == {i};
      assert |s.seeds| == |s.seeds.Keys|;
    }
  }

  /**
   Every configured lifecycle that a guarded run reaches names the one seed in custody, and the address derived from that
   seed is the committed one; a seed present at the start is still there, unchanged and alone.
   */
  lemma ReachableLifecycleIsBacked(derive: Seed -> Address, st: State, events: seq<Event>)
    requires Start(derive, st) && Guarded(derive, st, events)
    ensures var s := RunAll(derive, st, events).stores;
            && (s.lifecycle.Some? && s.lifecycle.value.Configured? ==>
                  && s.seeds.Keys == {s.lifecycle.value.id}
                  && derive(s.seeds[s.lifecycle.value.id].seed) == s.lifecycle.value.address)
            && |s.seeds| <= 1
            && (st.stores.seeds != map[] ==> s.seeds == st.stores.seeds)
  {
    RunAllKeepsInv(derive, st, events);
    var s := RunAll(derive, st, events).stores;
    hide RunAll, Guarded, ProcInv, Compatible;
    AtMostOne(derive, s);
    if j :| j in st.stores.seeds {
      assert s.seeds.Keys == {j} && st.stores.seeds.Keys == {j};
      assert s.seeds == st.stores.seeds;
    }
  }

  // ----- one administrator at a time

  /** At most one process is in the middle of a command. */
  predicate Alone(st: State) {
    forall p, q :: p in st.procs && q in st.procs && p != q ==> st.procs[p].Finished? || st.procs[q].Finished?
  }

  predicate OneAtATime(derive: Seed -> Address, st: State, events: seq<Event>) {
    Alone(RunAll(derive, st, events)) && (events != [] ==> OneAtATime(derive, st, events[..|events| - 1]))
  }

  /** Administrators that run one at a time are guarded. */
  lemma {:induction false} OneAtATimeIsGuarded(derive: Seed -> Address, st: State, events: seq<Event>)
    requires OneAtATime(derive, st, events)
    ensures Guarded(derive, st, events)
  {
    if events != [] {
      OneAtATimeIsGuarded(derive, st, events[..|events| - 1]);
    }
  }

  // ----- a configured lifecycle

  ghost predicate ConfiguredInv(derive: Seed -> Address, st: State) {
    Inv(derive, st) && st.stores.lifecycle.Some? && st.stores.lifecycle.value.Configured?
  }

  lemma RunKeepsConfigured(derive: Seed -> Address, st: State, p: nat, ch: Choice)
    requires ConfiguredInv(derive, st) && !Setting(st) && p in st.procs
    ensures var st' := Apply(derive, st, Run(p, ch)); st'.stores.lifecycle == st.stores.lifecycle && !Setting(st')
  {
    var proc, l := st.procs[p], st.stores.lifecycle.value;
    assert ProcInv(derive, st.stores, p, proc);
    hide Step, StoreInv, ProcInv, Compatible;
    OnlyLateSetReopens(derive, st.stores, st.procs.Keys, p, proc, ch, l.id, l.address);
    ConfiguredStopsSetting(derive, st.stores, st.procs.Keys, p, proc, ch);
  }

  lemma EventKeepsConfigured(derive: Seed -> Address, st: State, event: Event)
    requires ConfiguredInv(derive, st) && !Setting(st)
    ensures var st' := Apply(derive, st, event);
            ConfiguredInv(derive, st') && !Setting(st') && st'.stores.lifecycle == st.stores.lifecycle
  {
    EventKeepsInv(derive, st, event);
    hide Inv, Step;
    if event.Run? && event.p in st.procs {
      RunKeepsConfigured(derive, st, event.p, event.choice);
    }
  }

  lemma {:induction false} ConfiguredStays(derive: Seed -> Address, st: State, events: seq<Event>)
    requires ConfiguredInv(derive, st) && !Setting(st)
    ensures var st' := RunAll(derive, st, events);
            ConfiguredInv(derive, st') && !Setting(st') && st'.stores.lifecycle == st.stores.lifecycle
  {
    hide ConfiguredInv, Setting, Apply;
    if events != [] {
      var last := |events| - 1;
      ConfiguredStays(derive, st, events[..last]);
      EventKeepsConfigured(derive, RunAll(derive, st, events[..last]), events[last]);
    }
  }

  lemma RunOnce(derive: Seed -> Address, st: State, e: Event)
    ensures RunAll(derive, st, [e]) == Apply(derive, st, e)
  {
    assert [e][..0] == [];
  }

  lemma LateSetReopens(derive: Seed -> Address, st: State, q: nat)
    requires ConfiguredInv(derive, st) && q in st.procs && IsSetting(st.procs[q])
    ensures RunAll(derive, st, [Run(q, Choice(NoFault, []))]).stores.lifecycle != st.stores.lifecycle
  {
    var l, ch := st.stores.lifecycle.value, Choice(NoFault, []);
    assert ProcInv(derive, st.stores, q, st.procs[q]);
    hide Step, StoreInv, ProcInv, Compatible;
    OnlyLateSetReopens(derive, st.stores, st.procs.Keys, q, st.procs[q], ch, l.id, l.address);
    RunOnce(derive, st, Run(q, ch));
  }

  /**
   A configured lifecycle stays on every continuation, whoever starts, fails or crashes, exactly when no repair is still
   about to write an address.
   */
  lemma ConfiguredStaysIff(derive: Seed -> Address, st: State)
    requires ConfiguredInv(derive, st)
    ensures !Setting(st) <==> forall more :: RunAll(derive, st, more).stores.lifecycle == st.stores.lifecycle
  {
    hide ConfiguredInv, RunAll;
    if Setting(st) {
      var q :| q in st.procs && IsSetting(st.procs[q]);
      LateSetReopens(derive, st, q);
    } else {
      forall more ensures RunAll(derive, st, more).stores.lifecycle == st.stores.lifecycle {
        ConfiguredStays(derive, st, more);
      }
    }
  }

  /**
   A process may commit the lifecycle exactly when no repair is about to write an address: then what it commits stays on
   every continuation, and otherwise some continuation undoes it.
   */
  lemma CommitIsFinalIff(derive: Seed -> Address, st: State, p: nat, r: Seed)
    requires Inv(derive, st) && p in st.procs && st.procs[p].Writing?
    requires st.procs[p].record.Some? && st.procs[p].record.value.Configured?
    ensures var st' := Apply(derive, st, Run(p, Choice(NoFault, r)));
            && st'.stores.lifecycle == st.procs[p].record
            && (!Setting(st) <==> forall more :: RunAll(derive, st', more).stores.lifecycle == st'.stores.lifecycle)
  {
    var e := Run(p, Choice(NoFault, r));
    var st' := Apply(derive, st, e);
    EventKeepsInv(derive, st, e);
    CommitterIsNotSetting(derive, st, p, r);
    hide Inv, Apply, RunAll;
    ConfiguredStaysIff(derive, st');
  }

  lemma CommitterIsNotSetting(derive: Seed -> Address, st: State, p: nat, r: Seed)
    requires Inv(derive, st) && p in st.procs && st.procs[p].Writing?
    requires st.procs[p].record.Some? && st.procs[p].record.value.Configured?
    ensures var st' := Apply(derive, st, Run(p, Choice(NoFault, r)));
            st'.stores.lifecycle == st.procs[p].record && (Setting(st') <==> Setting(st))
  {
    var proc, st' := st.procs[p], Apply(derive, st, Run(p, Choice(NoFault, r)));
    assert ProcInv(derive, st.stores, p, proc) && !IsSetting(proc) && !IsSetting(st'.procs[p]);
    hide StoreInv, ProcInv, Compatible, Step;
    forall q | q in st.procs && q != p ensures st'.procs[q] == st.procs[q] {}
  }

  // ----- a configured lifecycle under one administrator at a time

  /** What a process is about to write is still what its update finds. */
  predicate WritesFit(derive: Seed -> Address, st: State) {
    forall q :: q in st.procs && st.procs[q].Writing? ==>
      IsUpdate(st.procs[q].at) && Find(derive, st.stores.lifecycle, st.procs[q].at) == Write(st.procs[q].record)
  }

  lemma StepFits(derive: Seed -> Address, s: Stores, alive: set<nat>, p: nat, proc: Proc, ch: Choice)
    requires proc.Writing? ==> IsUpdate(proc.at) && Find(derive, s.lifecycle, proc.at) == Write(proc.record)
    ensures var c := Step(derive, s, alive, p, proc, ch);
            && (c.proc.Writing? ==> IsUpdate(c.proc.at) && Find(derive, c.stores.lifecycle, c.proc.at) == Write(c.proc.record))
            && (s.lifecycle.Some? && s.lifecycle.value.Configured? ==> c.stores.lifecycle == s.lifecycle)
            && (proc.Finished? ==> c == Config(s, proc))
  {
    LookNeverWrites(derive, s, alive, proc, ch);
    if proc.Finished? {
      assert Look(derive, s, alive, proc, ch) == proc;
    }
    hide Look;
  }

  lemma EventFits(derive: Seed -> Address, st: State, event: Event)
    requires WritesFit(derive, st) && Alone(st)
    ensures var st' := Apply(derive, st, event);
            && WritesFit(derive, st')
            && (st.stores.lifecycle.Some? && st.stores.lifecycle.value.Configured? ==> st'.stores.lifecycle == st.stores.lifecycle)
  {
    hide Step, Find;
    if event.Run? && event.p in st.procs {
      StepFits(derive, st.stores, st.procs.Keys, event.p, st.procs[event.p], event.choice);
    }
  }

  lemma {:induction false} OneAtATimeFits(derive: Seed -> Address, st: State, events: seq<Event>)
    requires st.procs == map[] && OneAtATime(derive, st, events)
    ensures WritesFit(derive, RunAll(derive, st, events))
  {
    hide Apply;
    if events != [] {
      var last := |events| - 1;
      OneAtATimeFits(derive, st, events[..last]);
      EventFits(derive, RunAll(derive, st, events[..last]), events[last]);
    }
  }

  /** Administrators that run one at a time never undo a configured lifecycle: it stays from the first moment it is there. */
  lemma {:induction false} OneAtATimeNeverReopens(derive: Seed -> Address, st: State, events: seq<Event>, k: nat)
    requires st.procs == map[] && OneAtATime(derive, st, events) && k <= |events|
    ensures var l := RunAll(derive, st, events[..k]).stores.lifecycle;
            l.Some? && l.value.Configured? ==> RunAll(derive, st, events).stores.lifecycle == l
  {
    hide Apply, WritesFit, Alone;
    if k == |events| {
      assert events[..k] == events;
    } else {
      var last := |events| - 1;
      assert events[..last][..k] == events[..k];
      OneAtATimeNeverReopens(derive, st, events[..last], k);
      OneAtATimeFits(derive, st, events[..last]);
      EventFits(derive, RunAll(derive, st, events[..last]), events[last]);
    }
  }
}
