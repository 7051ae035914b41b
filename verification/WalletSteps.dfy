/** The laws of one access to a store: what it keeps for the stores, for the process itself and for every other process. */
module WalletSteps {
  import opened Options
  import opened WalletStores
  import opened WalletMachine

  // ----- the stores

  lemma BeginKeepsStores(derive: Seed -> Address, s: Stores, p: nat, proc: Proc)
    requires StoreInv(derive, s) && ProcInv(derive, s, p, proc) && s.lifecycle.None?
    requires proc.CreateBegin? || proc.OrphanBegin?
    ensures Keeps(derive, s, s.(lifecycle := Some(Begun(proc.id, p))))
  {
    ProvisioningKeeps(derive, s, Begun(proc.id, p));
  }

  lemma OwnerWriteKeepsStores(derive: Seed -> Address, s: Stores, p: nat, at: Proc, record: Option<Lifecycle>)
    requires StoreInv(derive, s) && ProcInv(derive, s, p, Writing(at, record)) && Owned(at).Some?
    ensures Keeps(derive, s, s.(lifecycle := record))
  {
    if at.CreateCommit? {
      ConfiguredKeeps(derive, s, at.id, derive(at.seed));
    } else if at.OrphanCommit? {
      ConfiguredKeeps(derive, s, at.id, at.address);
    } else {
      ProvisioningKeeps(derive, s, record.value);
    }
  }

  lemma ResumedWriteKeepsStores(derive: Seed -> Address, s: Stores, p: nat, at: Proc, record: Option<Lifecycle>)
    requires StoreInv(derive, s) && ProcInv(derive, s, p, Writing(at, record)) && Owned(at).None?
    ensures Keeps(derive, s, s.(lifecycle := record))
  {
    if at.ResumeClear? {
      AbsenceKeeps(derive, s);
    } else if at.ResumeCommit? {
      ConfiguredKeeps(derive, s, at.id, at.address);
    } else {
      ProvisioningKeeps(derive, s, record.value);
    }
  }

  lemma StepKeepsStores(derive: Seed -> Address, s: Stores, alive: set<nat>, p: nat, proc: Proc, ch: Choice)
    requires StoreInv(derive, s) && ProcInv(derive, s, p, proc)
    ensures Keeps(derive, s, Step(derive, s, alive, p, proc, ch).stores)
  {
    assert Keeps(derive, s, s);
    hide Keeps, StoreInv, Look, MatchStep, Find, HeldBy;
    match proc
    case CreateBegin(_) => if s.lifecycle.None? { BeginKeepsStores(derive, s, p, proc); }
    case OrphanBegin(_, _) => if s.lifecycle.None? { BeginKeepsStores(derive, s, p, proc); }
    case CreatePut(id, seed) => SeedKeeps(derive, s, id, seed);
    case Writing(at, record) =>
      if Owned(at).Some? {
        OwnerWriteKeepsStores(derive, s, p, at, record);
      } else {
        ResumedWriteKeepsStores(derive, s, p, at, record);
      }
    case _ =>
  }

  /**
   An access undoes a configured lifecycle exactly when it is the late write, taking effect, of a repair that still sets
   the address of its seed.
   */
  lemma OnlyLateSetReopens(derive: Seed -> Address, s: Stores, alive: set<nat>, p: nat, proc: Proc, ch: Choice, id: Id, address: Address)
    requires StoreInv(derive, s) && ProcInv(derive, s, p, proc) && s.lifecycle == Some(Configured(id, address))
    ensures var l := Step(derive, s, alive, p, proc, ch).stores.lifecycle;
            && (l != s.lifecycle <==> IsSetting(proc) && !ch.fault.FailBefore?)
            && (l != s.lifecycle ==> proc.at == ResumeSet(id, address) && Matches(l, id) && l.value.expected == Some(address))
  {
    hide Look, MatchStep;
    if IsSetting(proc) {
      assert Matches(proc.record, proc.at.id);
    }
  }

  /** On a configured lifecycle no process gets to set an address. */
  lemma ConfiguredStopsSetting(derive: Seed -> Address, s: Stores, alive: set<nat>, p: nat, proc: Proc, ch: Choice)
    requires s.lifecycle.Some? && s.lifecycle.value.Configured?
    ensures IsSetting(Step(derive, s, alive, p, proc, ch).proc) ==> IsSetting(proc)
  {
    hide Look;
    LookNeverWrites(derive, s, alive, proc, ch);
  }

  /** Only the matching read of an update gets a process to write. */
  lemma LookNeverWrites(derive: Seed -> Address, s: Stores, alive: set<nat>, proc: Proc, ch: Choice)
    ensures Look(derive, s, alive, proc, ch).Writing? ==> proc.Writing?
  {
  }

  /**
   What a creation has seen when it goes on, whatever the other processes do: no lifecycle, no seed, then no seed under its
   id, then its own seed read back, and at last no other seed.
   */
  lemma CreationGoesOn(derive: Seed -> Address, s: Stores, alive: set<nat>, p: nat, proc: Proc, ch: Choice)
    requires Pending(Position(proc)).Some? || Owned(Position(proc)).Some?
    ensures var next := Step(derive, s, alive, p, proc, ch).proc;
            && (next.CreateList? <==> proc.CreateRead? && ch.fault.NoFault? && s.lifecycle == None)
            && (next.CreateBegin? <==> proc.CreateList? && ch.fault.NoFault? && s.seeds == map[])
            && (next.CreatePut? <==> proc.CreateStore? && ch.fault.NoFault? && proc.id !in s.seeds)
            && (next.CreateCheck? <==>
                  && proc.CreateReadBack? && ch.fault.NoFault?
                  && proc.id in s.seeds && s.seeds[proc.id] == SeedRecord(derive(proc.seed), proc.seed))
            && (next.CreateCommit? <==> proc.CreateCheck? && ch.fault.NoFault? && s.seeds.Keys == {proc.id})
            && (next == Finished(Ok(Created)) <==> proc.Writing? && proc.at.CreateCommit? && ch.fault.NoFault?)
  {
    assert s.seeds == map[] <==> s.seeds.Keys == {};
  }

  // ----- updates of the lifecycle file, without failures and interference

  /** The read of the record and, if the update goes on to it, the write. */
  function Updated(derive: Seed -> Address, s: Stores, alive: set<nat>, p: nat, at: Proc): Config {
    var c := Step(derive, s, alive, p, at, Choice(NoFault, []));
    if c.proc.Writing? then Step(derive, c.stores, alive, p, c.proc, Choice(NoFault, [])) else c
  }

  function Refused(s: Stores, at: Proc): Config
    requires IsUpdate(at)
  {
    Config(s, OnError(at, ManualRecoveryRequired))
  }

  /** An address is set in the provisioning record of the same id, where there is none yet or the same. */
  lemma SettingIsExact(derive: Seed -> Address, s: Stores, alive: set<nat>, p: nat, at: Proc, address: Address)
    requires at.CreateSet? || at.OrphanSet? || at.ResumeSet?
    requires address == if at.CreateSet? then derive(at.seed) else at.address
    ensures Updated(derive, s, alive, p, at) ==
      match s.lifecycle
      case Some(Provisioning(id, owner, active, expected)) =>
        if id == at.id && expected in {None, Some(address)}
          then Config(s.(lifecycle := Some(Provisioning(id, owner, active, Some(address)))), OnSuccess(at)) else Refused(s, at)
      case _ => Refused(s, at)
  {
    hide Look;
  }

  /** A wallet is configured over the provisioning record of the same id in which the address was set. */
  lemma CommitIsExact(derive: Seed -> Address, s: Stores, alive: set<nat>, p: nat, at: Proc, address: Address)
    requires at.CreateCommit? || at.OrphanCommit? || at.ResumeCommit?
    requires address == if at.CreateCommit? then derive(at.seed) else at.address
    ensures Updated(derive, s, alive, p, at) ==
      match s.lifecycle
      case Some(Provisioning(id, _, _, expected)) =>
        if id == at.id && expected == Some(address)
          then Config(s.(lifecycle := Some(Configured(id, address))), OnSuccess(at)) else Refused(s, at)
      case _ => Refused(s, at)
  {
    hide Look;
  }

  /** Abandoning changes nothing but the flag of the provisioning record of the same id. */
  lemma AbandonIsExact(derive: Seed -> Address, s: Stores, alive: set<nat>, p: nat, id: Id, code: Code)
    ensures Updated(derive, s, alive, p, Abandon(id, code)) ==
      Config(match s.lifecycle
             case Some(Provisioning(i, owner, _, expected)) =>
               if i == id then s.(lifecycle := Some(Provisioning(id, owner, false, expected))) else s
             case _ => s,
             Stop(code))
  {
    hide Look;
  }

  /** Clearing removes the provisioning record of the same id, or finds no file. */
  lemma ClearingIsExact(derive: Seed -> Address, s: Stores, alive: set<nat>, p: nat, id: Id)
    ensures Updated(derive, s, alive, p, ResumeClear(id)) ==
      match s.lifecycle
      case None => Config(s, Finished(Ok(ClearedIncomplete)))
      case Some(Provisioning(i, _, _, _)) =>
        if i == id then Config(s.(lifecycle := None), Finished(Ok(ClearedIncomplete))) else Config(s, Stop(ManualRecoveryRequired))
      case Some(Configured(_, _)) => Config(s, Stop(ManualRecoveryRequired))
  {
    hide Look;
  }

  // ----- the process itself

  // Looking is split into the steps of a creation, those of a repair up to its choice of a branch, and those after it.

  lemma CreatorLooks(derive: Seed -> Address, s: Stores, alive: set<nat>, p: nat, proc: Proc, ch: Choice)
    requires ProcInv(derive, s, p, proc)
    requires Pending(proc).Some? || Owned(proc).Some?
    requires !proc.CreateBegin? && !proc.CreatePut? && !IsUpdate(proc)
    ensures ProcInv(derive, s, p, Look(derive, s, alive, proc, ch))
  {
  }

  lemma RepairLooks(derive: Seed -> Address, s: Stores, alive: set<nat>, p: nat, proc: Proc, ch: Choice)
    requires ProcInv(derive, s, p, proc) && (proc.RepairRead? || proc.RepairList?)
    ensures ProcInv(derive, s, p, Look(derive, s, alive, proc, ch))
  {
  }

  lemma BranchLooks(derive: Seed -> Address, s: Stores, alive: set<nat>, p: nat, proc: Proc, ch: Choice)
    requires ProcInv(derive, s, p, proc) && (proc.OrphanRead? || proc.VerifyRead? || proc.ResumeRead?)
    ensures ProcInv(derive, s, p, Look(derive, s, alive, proc, ch))
  {
  }

  lemma EndLooks(derive: Seed -> Address, s: Stores, alive: set<nat>, p: nat, proc: Proc, ch: Choice)
    requires proc.LostBegin? || proc.Finished?
    ensures ProcInv(derive, s, p, Look(derive, s, alive, proc, ch))
  {
  }

  lemma OwnerMatches(derive: Seed -> Address, s: Stores, p: nat, at: Proc, fault: Fault)
    requires ProcInv(derive, s, p, at) && IsUpdate(at) && Owned(at).Some?
    ensures ProcInv(derive, s, p, MatchStep(derive, s, at, fault))
  {
  }

  lemma ClearingMatches(derive: Seed -> Address, s: Stores, p: nat, at: Proc, fault: Fault)
    requires StoreInv(derive, s) && ProcInv(derive, s, p, at) && at.ResumeClear?
    ensures ProcInv(derive, s, p, MatchStep(derive, s, at, fault))
  {
  }

  lemma ResumedMatches(derive: Seed -> Address, s: Stores, p: nat, at: Proc, fault: Fault)
    requires ProcInv(derive, s, p, at) && (at.ResumeSet? || at.ResumeCommit?)
    ensures ProcInv(derive, s, p, MatchStep(derive, s, at, fault))
  {
  }

  lemma OwnerWrites(derive: Seed -> Address, s: Stores, p: nat, at: Proc, record: Option<Lifecycle>, fault: Fault)
    requires ProcInv(derive, s, p, Writing(at, record)) && Owned(at).Some?
    ensures var c := WriteStep(s, at, record, fault); ProcInv(derive, c.stores, p, c.proc)
  {
  }

  lemma ResumedWrites(derive: Seed -> Address, s: Stores, p: nat, at: Proc, record: Option<Lifecycle>, fault: Fault)
    requires ProcInv(derive, s, p, Writing(at, record)) && Owned(at).None?
    ensures var c := WriteStep(s, at, record, fault); ProcInv(derive, c.stores, p, c.proc)
  {
  }

  lemma BeginKeepsSelf(derive: Seed -> Address, s: Stores, p: nat, proc: Proc, fault: Fault, next: Proc)
    requires ProcInv(derive, s, p, proc)
    requires (proc.CreateBegin? && next == CreateFill(proc.id)) || (proc.OrphanBegin? && next == OrphanSet(proc.id, proc.address))
    ensures var c := BeginStep(s, proc.id, p, fault, next); ProcInv(derive, c.stores, p, c.proc)
  {
  }

  lemma PutKeepsSelf(derive: Seed -> Address, s: Stores, p: nat, id: Id, seed: Seed, fault: Fault)
    requires ProcInv(derive, s, p, CreatePut(id, seed))
    ensures var c := PutStep(derive, s, id, seed, fault); ProcInv(derive, c.stores, p, c.proc)
  {
  }

  lemma StepKeepsSelf(derive: Seed -> Address, s: Stores, alive: set<nat>, p: nat, proc: Proc, ch: Choice)
    requires StoreInv(derive, s) && ProcInv(derive, s, p, proc)
    ensures var c := Step(derive, s, alive, p, proc, ch); ProcInv(derive, c.stores, p, c.proc)
  {
    assert proc.Writing? ==> IsUpdate(proc.at);
    hide ProcInv, StoreInv, Look, MatchStep, WriteStep, BeginStep, PutStep;
    if proc.Writing? {
      if Owned(proc.at).Some? {
        OwnerWrites(derive, s, p, proc.at, proc.record, ch.fault);
      } else {
        ResumedWrites(derive, s, p, proc.at, proc.record, ch.fault);
      }
    } else if proc.CreateBegin? {
      BeginKeepsSelf(derive, s, p, proc, ch.fault, CreateFill(proc.id));
    } else if proc.OrphanBegin? {
      BeginKeepsSelf(derive, s, p, proc, ch.fault, OrphanSet(proc.id, proc.address));
    } else if proc.CreatePut? {
      PutKeepsSelf(derive, s, p, proc.id, proc.seed, ch.fault);
    } else {
      LookOrMatchKeepsSelf(derive, s, alive, p, proc, ch);
    }
  }

  lemma LookOrMatchKeepsSelf(derive: Seed -> Address, s: Stores, alive: set<nat>, p: nat, proc: Proc, ch: Choice)
    requires StoreInv(derive, s) && ProcInv(derive, s, p, proc)
    requires !proc.Writing? && !proc.CreateBegin? && !proc.OrphanBegin? && !proc.CreatePut?
    ensures ProcInv(derive, s, p, if IsUpdate(proc) then MatchStep(derive, s, proc, ch.fault) else Look(derive, s, alive, proc, ch))
  {
    hide ProcInv, StoreInv, Look, MatchStep;
    if IsUpdate(proc) {
      if Owned(proc).Some? {
        OwnerMatches(derive, s, p, proc, ch.fault);
      } else if proc.ResumeClear? {
        ClearingMatches(derive, s, p, proc, ch.fault);
      } else {
        ResumedMatches(derive, s, p, proc, ch.fault);
      }
    } else if proc.RepairRead? || proc.RepairList? {
      RepairLooks(derive, s, alive, p, proc, ch);
    } else if Pending(proc).Some? || Owned(proc).Some? {
      CreatorLooks(derive, s, alive, p, proc, ch);
    } else if proc.LostBegin? || proc.Finished? {
      EndLooks(derive, s, alive, p, proc, ch);
    } else {
      BranchLooks(derive, s, alive, p, proc, ch);
    }
  }

  // ----- every other process

  /** A record put in place of an absent file disturbs nobody who does not hold its id. */
  lemma BeginKeepsOther(derive: Seed -> Address, s: Stores, l: Lifecycle, q: nat, other: Proc)
    requires StoreInv(derive, s) && ProcInv(derive, s, q, other) && s.lifecycle.None?
    requires l.Provisioning? && !HeldBy(other).Has(l.id)
    ensures ProcInv(derive, s.(lifecycle := Some(l)), q, other)
  {
  }

  /** The first seed, stored by the owner of the record, disturbs nobody else. */
  lemma PutKeepsOther(derive: Seed -> Address, s: Stores, p: nat, id: Id, seed: Seed, q: nat, other: Proc)
    requires StoreInv(derive, s) && ProcInv(derive, s, p, CreatePut(id, seed)) && ProcInv(derive, s, q, other)
    requires Compatible(CreatePut(id, seed), other) && Compatible(other, CreatePut(id, seed))
    ensures ProcInv(derive, PutSeed(s, id, derive(seed), seed), q, other)
  {
  }

  /** What an owner writes is the record of the id it owns, over a record of that id. */
  lemma OwnerWritesOwn(derive: Seed -> Address, s: Stores, p: nat, at: Proc, record: Option<Lifecycle>)
    requires ProcInv(derive, s, p, Writing(at, record)) && Owned(at).Some?
    ensures LifecycleId(s) == Owned(at) && record.Some? && record.value.id == Owned(at).value
  {
  }

  lemma OwnerWriteKeepsOther(derive: Seed -> Address, s: Stores, p: nat, at: Proc, record: Option<Lifecycle>, q: nat, other: Proc)
    requires StoreInv(derive, s) && ProcInv(derive, s, p, Writing(at, record)) && ProcInv(derive, s, q, other)
    requires Owned(at).Some? && Compatible(Writing(at, record), other) && Compatible(other, Writing(at, record))
    ensures ProcInv(derive, s.(lifecycle := record), q, other)
  {
    OwnerWritesOwn(derive, s, p, at, record);
    hide Find, StoreInv;
  }

  lemma ResumedWriteKeepsOther(derive: Seed -> Address, s: Stores, p: nat, at: Proc, record: Option<Lifecycle>, q: nat, other: Proc)
    requires StoreInv(derive, s) && ProcInv(derive, s, p, Writing(at, record)) && ProcInv(derive, s, q, other)
    requires Owned(at).None? && Compatible(Writing(at, record), other) && Compatible(other, Writing(at, record))
    ensures ProcInv(derive, s.(lifecycle := record), q, other)
  {
  }

  /** Where a repair can adopt an orphaned seed, nobody holds its id. */
  lemma OrphanIsFree(derive: Seed -> Address, s: Stores, p: nat, id: Id, address: Address, q: nat, other: Proc)
    requires ProcInv(derive, s, p, OrphanBegin(id, address)) && ProcInv(derive, s, q, other) && s.lifecycle.None?
    ensures !HeldBy(other).Has(id)
  {
  }

  lemma StepKeepsOther(derive: Seed -> Address, s: Stores, alive: set<nat>, p: nat, proc: Proc, ch: Choice, q: nat, other: Proc)
    requires StoreInv(derive, s) && ProcInv(derive, s, p, proc) && ProcInv(derive, s, q, other)
    requires Compatible(proc, other) && Compatible(other, proc)
    ensures ProcInv(derive, Step(derive, s, alive, p, proc, ch).stores, q, other)
  {
    hide ProcInv, StoreInv, Look, MatchStep, Find, OnSuccess, OnError;
    match proc
    case CreateBegin(id) => if s.lifecycle.None? { BeginKeepsOther(derive, s, Begun(id, p), q, other); }
    case OrphanBegin(id, address) =>
      if s.lifecycle.None? {
        OrphanIsFree(derive, s, p, id, address, q, other);
        BeginKeepsOther(derive, s, Begun(id, p), q, other);
      }
    case CreatePut(id, seed) => PutKeepsOther(derive, s, p, id, seed, q, other);
    case Writing(at, record) =>
      if Owned(at).Some? {
        OwnerWriteKeepsOther(derive, s, p, at, record, q, other);
      } else {
        ResumedWriteKeepsOther(derive, s, p, at, record, q, other);
      }
    case _ =>
  }

  // ----- what the processes hold

  /** How the ids a process holds can change. */
  predicate Progress(s: Stores, alive: set<nat>, h: Holding, h': Holding, begins: bool) {
    && (h'.pending.Some? ==> h'.pending == h.pending)
    && (h'.owned.Some? ==>
          || h'.owned == h.owned
          || (begins && h'.owned == h.pending)
          || (s.lifecycle.None? && h'.owned.value in s.seeds))
    && (h'.resumed.Some? ==>
          || h'.resumed == h.resumed
          || (LifecycleId(s) == h'.resumed && s.lifecycle.value.Provisioning? && !IsActive(s.lifecycle.value, alive)))
    && (h'.clearing ==> h.clearing || (h.resumed.Some? && LifecycleId(s) == h.resumed))
  }

  /** What holding an id says about the stores. */
  predicate Reliance(s: Stores, alive: set<nat>, h: Holding) {
    && (h.pending.Some? ==> h.pending.value !in s.seeds && LifecycleId(s) != h.pending)
    && (h.resumed.Some? ==> SettledStores(s))
    && (h.owned.Some? ==>
          LifecycleId(s) == h.owned && (s.lifecycle.value.Provisioning? ==> IsActive(s.lifecycle.value, alive)))
    && (h.clearing ==> s.seeds == map[])
  }

  lemma StaysApart(s: Stores, alive: set<nat>, h: Holding, h': Holding, begins: bool, other: Holding)
    requires h.Apart(other) && other.Apart(h) && Progress(s, alive, h, h', begins) && Reliance(s, alive, other)
    requires !(begins && other.clearing)
    ensures h'.Apart(other) && other.Apart(h')
  {
  }

  /** The step is a creation that begins. */
  predicate IsBegin(s: Stores, proc: Proc, ch: Choice) {
    proc.CreateBegin? && s.lifecycle.None? && ch.fault.NoFault?
  }

  lemma WriteProgresses(derive: Seed -> Address, s: Stores, alive: set<nat>, p: nat, at: Proc, record: Option<Lifecycle>, fault: Fault)
    requires ProcInv(derive, s, p, Writing(at, record))
    ensures Progress(s, alive, HeldBy(Writing(at, record)), HeldBy(WriteStep(s, at, record, fault).proc), false)
  {
    hide AtInv, WriteInv;
  }

  lemma MatchProgresses(derive: Seed -> Address, s: Stores, alive: set<nat>, at: Proc, fault: Fault)
    requires IsUpdate(at)
    ensures Progress(s, alive, HeldBy(at), HeldBy(MatchStep(derive, s, at, fault)), false)
  {
  }

  lemma CreatorProgresses(derive: Seed -> Address, s: Stores, alive: set<nat>, proc: Proc, ch: Choice)
    requires Pending(proc).Some? || Owned(proc).Some?
    requires !proc.CreateBegin? && !proc.CreatePut? && !IsUpdate(proc)
    ensures Progress(s, alive, HeldBy(proc), HeldBy(Look(derive, s, alive, proc, ch)), false)
  {
  }

  lemma RepairProgresses(derive: Seed -> Address, s: Stores, alive: set<nat>, proc: Proc, ch: Choice)
    requires Pending(proc).None? && Owned(proc).None? && !IsUpdate(proc) && !proc.OrphanBegin? && !proc.Writing?
    ensures Progress(s, alive, HeldBy(proc), HeldBy(Look(derive, s, alive, proc, ch)), false)
  {
  }

  lemma BeginProgresses(derive: Seed -> Address, s: Stores, alive: set<nat>, p: nat, proc: Proc, ch: Choice)
    requires ProcInv(derive, s, p, proc) && (proc.CreateBegin? || proc.OrphanBegin? || proc.CreatePut?)
    ensures Progress(s, alive, HeldBy(proc), HeldBy(Step(derive, s, alive, p, proc, ch).proc), IsBegin(s, proc, ch))
  {
  }

  lemma StepProgresses(derive: Seed -> Address, s: Stores, alive: set<nat>, p: nat, proc: Proc, ch: Choice)
    requires ProcInv(derive, s, p, proc)
    ensures Progress(s, alive, HeldBy(proc), HeldBy(Step(derive, s, alive, p, proc, ch).proc), IsBegin(s, proc, ch))
  {
    assert proc.Writing? ==> IsUpdate(proc.at);
    hide ProcInv, Progress, HeldBy, Look, MatchStep, WriteStep, BeginStep, PutStep;
    if proc.Writing? {
      WriteProgresses(derive, s, alive, p, proc.at, proc.record, ch.fault);
    } else if IsUpdate(proc) {
      MatchProgresses(derive, s, alive, proc, ch.fault);
    } else if proc.CreateBegin? || proc.OrphanBegin? || proc.CreatePut? {
      BeginProgresses(derive, s, alive, p, proc, ch);
    } else if Pending(proc).Some? || Owned(proc).Some? {
      CreatorProgresses(derive, s, alive, proc, ch);
    } else {
      RepairProgresses(derive, s, alive, proc, ch);
    }
  }

  lemma Relies(derive: Seed -> Address, s: Stores, alive: set<nat>, q: nat, other: Proc)
    requires ProcInv(derive, s, q, other) && q in alive
    ensures Reliance(s, alive, HeldBy(other))
  {
  }

  lemma StepKeepsCompatible(derive: Seed -> Address, s: Stores, alive: set<nat>, p: nat, proc: Proc, ch: Choice, q: nat, other: Proc)
    requires ProcInv(derive, s, p, proc) && ProcInv(derive, s, q, other) && q in alive
    requires Compatible(proc, other) && Compatible(other, proc) && !(IsBegin(s, proc, ch) && IsClearing(other))
    ensures var c := Step(derive, s, alive, p, proc, ch); Compatible(c.proc, other) && Compatible(other, c.proc)
  {
    hide Step, ProcInv, Progress, Reliance, IsBegin;
    StepProgresses(derive, s, alive, p, proc, ch);
    Relies(derive, s, alive, q, other);
    var next := Step(derive, s, alive, p, proc, ch).proc;
    StaysApart(s, alive, HeldBy(proc), HeldBy(next), IsBegin(s, proc, ch), HeldBy(other));
  }
}
