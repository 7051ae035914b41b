/**
 The steps of `create` and `repair`, one access to a store at a time, by any number of processes that interleave freely,
 meet failures before or after the effect of an access, and crash between any two of them. An update of the lifecycle file
 is two accesses: it reads the record it has to match, and later replaces or removes whatever the file then holds.
 */
module WalletMachine {
  import opened Options
  import opened WalletStores

  /** Where a process stands: the next access it is about to make, with the local values it needs. */
  datatype Proc =
    | CreateRead(id: Id)
    | CreateList(id: Id)
    | CreateBegin(id: Id)
    | CreateFill(id: Id)
    | CreateSet(id: Id, seed: Seed)
    | CreateStore(id: Id, seed: Seed)
    | CreatePut(id: Id, seed: Seed)
    | CreateReadBack(id: Id, seed: Seed)
    | CreateCheck(id: Id, seed: Seed)
    | CreateCommit(id: Id, seed: Seed)
    | Abandon(id: Id, code: Code)
    | RepairRead
    | RepairList(seen: Option<Lifecycle>)
    | OrphanRead(id: Id)
    | OrphanBegin(id: Id, address: Address)
    | OrphanSet(id: Id, address: Address)
    | OrphanCommit(id: Id, address: Address)
    | VerifyRead(id: Id, address: Address)
    | ResumeClear(id: Id)
    | ResumeRead(id: Id, expected: Option<Address>)
    | ResumeSet(id: Id, address: Address)
    | ResumeCommit(id: Id, address: Address)
    | LostBegin
    | Writing(at: Proc, record: Option<Lifecycle>)
    | Finished(result: Result)

  datatype Fault = NoFault | FailBefore | FailAfter

  /** What the outside contributes to a step: whether and when the access fails, and fresh random bytes. */
  datatype Choice = Choice(fault: Fault, random: Seed)

  datatype Config = Config(stores: Stores, proc: Proc)

  function Stop(code: Code): Proc {
    Finished(Err(code))
  }

  // ----- updates of the lifecycle file

  predicate IsUpdate(proc: Proc) {
    || proc.CreateSet? || proc.CreateCommit? || proc.Abandon? || proc.OrphanSet? || proc.OrphanCommit?
    || proc.ResumeClear? || proc.ResumeSet? || proc.ResumeCommit?
  }

  /** What the update finds in the record it reads. */
  function Find(derive: Seed -> Address, l: Option<Lifecycle>, at: Proc): Finding
    requires IsUpdate(at)
  {
    match at
    case CreateSet(id, seed) => SetExpected(l, id, derive(seed))
    case CreateCommit(id, seed) => CommitConfigured(l, id, derive(seed))
    case Abandon(id, _) => AbandonProvisioning(l, id)
    case OrphanSet(id, address) => SetExpected(l, id, address)
    case OrphanCommit(id, address) => CommitConfigured(l, id, address)
    case ResumeClear(id) => ClearProvisioning(l, id)
    case ResumeSet(id, address) => SetExpected(l, id, address)
    case ResumeCommit(id, address) => CommitConfigured(l, id, address)
  }

  function OnSuccess(at: Proc): Proc
    requires IsUpdate(at)
  {
    match at
    case CreateSet(id, seed) => CreateStore(id, seed)
    case CreateCommit(_, _) => Finished(Ok(Created))
    case Abandon(_, code) => Stop(code)
    case OrphanSet(id, address) => OrphanCommit(id, address)
    case OrphanCommit(_, _) => Finished(Ok(Recovered))
    case ResumeClear(_) => Finished(Ok(ClearedIncomplete))
    case ResumeSet(id, address) => ResumeCommit(id, address)
    case ResumeCommit(_, _) => Finished(Ok(Recovered))
  }

  /** Whoever created the record abandons it; a failure to abandon is not reported. */
  function OnError(at: Proc, code: Code): Proc
    requires IsUpdate(at)
  {
    if at.Abandon? then Stop(at.code)
    else if at.CreateSet? || at.CreateCommit? || at.OrphanSet? || at.OrphanCommit? then Abandon(at.id, code)
    else Stop(code)
  }

  function MatchStep(derive: Seed -> Address, s: Stores, at: Proc, fault: Fault): Proc
    requires IsUpdate(at)
  {
    if !fault.NoFault? then OnError(at, Unavailable)
    else
      match Find(derive, s.lifecycle, at)
      case Refused(code) => OnError(at, code)
      case Done => OnSuccess(at)
      case Write(record) => Writing(at, record)
  }

  /** The write does not look at the file again. */
  function WriteStep(s: Stores, at: Proc, record: Option<Lifecycle>, fault: Fault): Config
    requires IsUpdate(at)
  {
    Config(if fault.FailBefore? then s else s.(lifecycle := record),
           if fault.NoFault? then OnSuccess(at) else OnError(at, Unavailable))
  }

  // ----- the other accesses

  /** Creation is exclusive: it takes effect only on an absent file, and a loser looks at what is there. */
  function BeginStep(s: Stores, id: Id, p: nat, fault: Fault, next: Proc): Config {
    if fault.FailBefore? then Config(s, Stop(Unavailable))
    else if s.lifecycle.Some? then Config(s, if fault.NoFault? then LostBegin else Stop(Unavailable))
    else Config(s.(lifecycle := Some(Begun(id, p))), if fault.NoFault? then next else Stop(Unavailable))
  }

  function PutStep(derive: Seed -> Address, s: Stores, id: Id, seed: Seed, fault: Fault): Config {
    Config(if fault.FailBefore? then s else PutSeed(s, id, derive(seed), seed),
           if fault.NoFault? then CreateReadBack(id, seed) else Abandon(id, CredentialStoreUnavailable))
  }

  /** The next access after the seed ids were listed, given the lifecycle read before. */
  function AfterList(seen: Option<Lifecycle>, ids: set<Id>): Proc {
    match seen
    case None =>
      if ids == {} then Finished(Ok(NoAction))
      else if id :| id in ids && ids == {id} then OrphanRead(id) else Stop(ManualRecoveryRequired)
    case Some(Configured(id, address)) =>
      if ids == {id} then VerifyRead(id, address) else Stop(ManualRecoveryRequired)
    case Some(Provisioning(id, _, _, expected)) =>
      if ids == {} then ResumeClear(id)
      else if ids == {id} then ResumeRead(id, expected) else Stop(ManualRecoveryRequired)
  }

  /** An access that only looks: where the process stands afterwards. */
  function Look(derive: Seed -> Address, s: Stores, alive: set<nat>, proc: Proc, ch: Choice): Proc {
    var fails := !ch.fault.NoFault?;
    match proc
    case CreateRead(id) =>
      if fails then Stop(Unavailable)
      else if s.lifecycle.None? then CreateList(id)
      else if s.lifecycle.value.Configured? then Stop(AlreadyConfigured)
      else Stop(if IsActive(s.lifecycle.value, alive) then Busy else RepairRequired)
    case CreateList(id) =>
      if fails then Stop(CredentialStoreUnavailable) else if s.seeds.Keys != {} then Stop(RepairRequired) else CreateBegin(id)
    case LostBegin =>
      if fails then Stop(Unavailable)
      else if s.lifecycle.Some? && s.lifecycle.value.Configured? then Stop(AlreadyConfigured)
      else Stop(if s.lifecycle.Some? && IsActive(s.lifecycle.value, alive) then Busy else RepairRequired)
    case CreateFill(id) =>
      if fails then Abandon(id, Unavailable) else CreateSet(id, ch.random)
    case CreateStore(id, seed) =>
      if fails then Abandon(id, CredentialStoreUnavailable)
      else if id in s.seeds then Abandon(id, RepairRequired) else CreatePut(id, seed)
    case CreateReadBack(id, seed) =>
      if fails then Abandon(id, CredentialStoreUnavailable)
      else if id !in s.seeds || s.seeds[id] != SeedRecord(derive(seed), seed) then Abandon(id, ManualRecoveryRequired)
      else CreateCheck(id, seed)
    case CreateCheck(id, seed) =>
      if fails then Abandon(id, CredentialStoreUnavailable)
      else if s.seeds.Keys != {id} then Abandon(id, ManualRecoveryRequired) else CreateCommit(id, seed)
    case RepairRead =>
      if fails then Stop(Unavailable)
      else if s.lifecycle.Some? && IsActive(s.lifecycle.value, alive) then Stop(Busy) else RepairList(s.lifecycle)
    case RepairList(seen) =>
      if fails then Stop(CredentialStoreUnavailable) else AfterList(seen, s.seeds.Keys)
    case OrphanRead(id) =>
      if fails then Stop(CredentialStoreUnavailable)
      else if id !in s.seeds || !ValidSeed(derive, s.seeds[id]) then Stop(ManualRecoveryRequired)
      else OrphanBegin(id, s.seeds[id].address)
    case VerifyRead(id, address) =>
      if fails then Stop(CredentialStoreUnavailable)
      else if id !in s.seeds || !ValidSeed(derive, s.seeds[id]) || s.seeds[id].address != address
      then Stop(ManualRecoveryRequired)
      else Finished(Ok(Verified))
    case ResumeRead(id, expected) =>
      if fails then Stop(CredentialStoreUnavailable)
      else if id !in s.seeds || !ValidSeed(derive, s.seeds[id]) then Stop(ManualRecoveryRequired)
      else if expected.Some? && expected.value != s.seeds[id].address then Stop(ManualRecoveryRequired)
      else if expected.None? then ResumeSet(id, s.seeds[id].address) else ResumeCommit(id, s.seeds[id].address)
    case _ => proc
  }

  /** The next access of process `p`. */
  function Step(derive: Seed -> Address, s: Stores, alive: set<nat>, p: nat, proc: Proc, ch: Choice): Config {
    match proc
    case CreateBegin(id) => BeginStep(s, id, p, ch.fault, CreateFill(id))
    case OrphanBegin(id, address) => BeginStep(s, id, p, ch.fault, OrphanSet(id, address))
    case CreatePut(id, seed) => PutStep(derive, s, id, seed, ch.fault)
    case Writing(at, record) => if IsUpdate(at) then WriteStep(s, at, record, ch.fault) else Config(s, proc)
    case _ => Config(s, if IsUpdate(proc) then MatchStep(derive, s, proc, ch.fault) else Look(derive, s, alive, proc, ch))
  }

  // ----- many processes

  datatype State = State(stores: Stores, procs: map<nat, Proc>)

  /** A process runs one command at a time, and may start another when it is done; a new operation id is fresh. */
  datatype Event = SpawnCreate(p: nat, id: Id) | SpawnRepair(p: nat) | Run(p: nat, choice: Choice) | Crash(p: nat)

  predicate Idle(st: State, p: nat) {
    p !in st.procs || st.procs[p].Finished?
  }

  function Apply(derive: Seed -> Address, st: State, event: Event): State {
    match event
    case SpawnCreate(p, id) =>
      if !Idle(st, p) || !Fresh(st, id) then st else st.(procs := st.procs[p := CreateRead(id)])
    case SpawnRepair(p) =>
      if !Idle(st, p) then st else st.(procs := st.procs[p := RepairRead])
    case Run(p, choice) =>
      if p !in st.procs then st
      else
        var c := Step(derive, st.stores, st.procs.Keys, p, st.procs[p], choice);
        State(c.stores, st.procs[p := c.proc])
    case Crash(p) => st.(procs := st.procs - {p})
  }

  function RunAll(derive: Seed -> Address, st: State, events: seq<Event>): State {
    if events == [] then st
    else Apply(derive, RunAll(derive, st, events[..|events| - 1]), events[|events| - 1])
  }

  // ----- what the processes hold

  function Position(proc: Proc): Proc {
    match proc
    case Writing(at, _) => at
    case _ => proc
  }

  /** The operation id of a creation that has not yet created its provisioning record. */
  function Pending(proc: Proc): Option<Id> {
    match proc
    case CreateRead(id) => Some(id)
    case CreateList(id) => Some(id)
    case CreateBegin(id) => Some(id)
    case _ => None
  }

  /** The id of the provisioning record a process created itself and still works on. */
  function Owned(proc: Proc): Option<Id> {
    match proc
    case CreateFill(id) => Some(id)
    case CreateSet(id, _) => Some(id)
    case CreateStore(id, _) => Some(id)
    case CreatePut(id, _) => Some(id)
    case CreateReadBack(id, _) => Some(id)
    case CreateCheck(id, _) => Some(id)
    case CreateCommit(id, _) => Some(id)
    case OrphanSet(id, _) => Some(id)
    case OrphanCommit(id, _) => Some(id)
    case Abandon(id, _) => Some(id)
    case _ => None
  }

  /** The id of a provisioning record a repair found inactive and works on. */
  function Resumed(proc: Proc): Option<Id> {
    match proc
    case RepairList(Some(Provisioning(id, _, _, _))) => Some(id)
    case ResumeClear(id) => Some(id)
    case ResumeRead(id, _) => Some(id)
    case ResumeSet(id, _) => Some(id)
    case ResumeCommit(id, _) => Some(id)
    case _ => None
  }

  /** A clearing between the read of the record it matched and the removal of the file. */
  predicate IsClearing(proc: Proc) {
    proc.Writing? && proc.at.ResumeClear?
  }

  /** A repair between the read of the record it matched and the write of the address of its seed. */
  predicate IsSetting(proc: Proc) {
    proc.Writing? && proc.at.ResumeSet?
  }

  /** Everything a process holds. */
  datatype Holding = Holding(pending: Option<Id>, owned: Option<Id>, resumed: Option<Id>, clearing: bool)
  {
    predicate Has(id: Id) {
      pending == Some(id) || owned == Some(id) || resumed == Some(id)
    }

    /** No other process holds what this one is about to create or owns, and nobody owns a record while this one clears. */
    predicate Apart(other: Holding) {
      && (pending.Some? ==> !other.Has(pending.value))
      && (owned.Some? ==> !other.Has(owned.value))
      && (clearing ==> other.owned.None?)
    }
  }

  function HeldBy(proc: Proc): Holding {
    var at := Position(proc);
    Holding(Pending(at), Owned(at), Resumed(at), IsClearing(proc))
  }

  function LifecycleId(s: Stores): Option<Id> {
    if s.lifecycle.None? then None else Some(s.lifecycle.value.id)
  }

  predicate Fresh(st: State, id: Id) {
    && id !in st.stores.seeds && LifecycleId(st.stores) != Some(id)
    && forall q :: q in st.procs ==> !HeldBy(st.procs[q]).Has(id)
  }

  // ----- the guard

  /** A creation is about to put its record in place of an absent file. */
  predicate Begins(st: State, event: Event) {
    && event.Run? && event.p in st.procs && st.procs[event.p].CreateBegin?
    && st.stores.lifecycle.None? && event.choice.fault.NoFault?
  }

  predicate Clearing(st: State) {
    exists q :: q in st.procs && IsClearing(st.procs[q])
  }

  predicate Setting(st: State) {
    exists q :: q in st.procs && IsSetting(st.procs[q])
  }

  /** No creation begins between a clearing's read and its removal of the file. */
  predicate Guarded(derive: Seed -> Address, st: State, events: seq<Event>) {
    events != [] ==>
      var before := RunAll(derive, st, events[..|events| - 1]);
      Guarded(derive, st, events[..|events| - 1]) && !(Begins(before, events[|events| - 1]) && Clearing(before))
  }

  // ----- the invariant

  predicate Own(s: Stores, p: nat, id: Id, expected: Option<Address>) {
    s.lifecycle == Some(Provisioning(id, p, true, expected))
  }

  predicate HasSeed(s: Stores, id: Id, address: Address) {
    id in s.seeds && s.seeds[id].address == address
  }

  predicate OwnSeed(derive: Seed -> Address, s: Stores, p: nat, id: Id, seed: Seed) {
    Own(s, p, id, Some(derive(seed))) && s.seeds == map[id := SeedRecord(derive(seed), seed)]
  }

  /** What a process relies on about the stores at its next access, whatever the others do. */
  predicate AtInv(derive: Seed -> Address, s: Stores, p: nat, at: Proc) {
    match at
    case CreateBegin(_) => SettledStores(s)
    case CreateFill(id) => Own(s, p, id, None) && s.seeds == map[]
    case CreateSet(id, _) => Own(s, p, id, None) && s.seeds == map[]
    case CreateStore(id, seed) => Own(s, p, id, Some(derive(seed))) && s.seeds == map[]
    case CreatePut(id, seed) => Own(s, p, id, Some(derive(seed))) && s.seeds == map[]
    case CreateReadBack(id, seed) => OwnSeed(derive, s, p, id, seed)
    case CreateCheck(id, seed) => OwnSeed(derive, s, p, id, seed)
    case CreateCommit(id, seed) => OwnSeed(derive, s, p, id, seed)
    case Abandon(id, _) =>
      LifecycleId(s) == Some(id) && (s.lifecycle.value.Provisioning? ==> s.lifecycle.value.active && s.lifecycle.value.owner == p)
    case OrphanRead(id) => id in s.seeds
    case OrphanBegin(id, address) => HasSeed(s, id, address)
    case OrphanSet(id, address) => Own(s, p, id, None) && HasSeed(s, id, address)
    case OrphanCommit(id, address) => Own(s, p, id, Some(address)) && HasSeed(s, id, address)
    case ResumeClear(id) => id !in s.seeds
    case ResumeRead(id, _) => id in s.seeds
    case ResumeSet(id, address) => HasSeed(s, id, address)
    case ResumeCommit(id, address) => HasSeed(s, id, address)
    case _ => true
  }

  /** What it relies on between the read of an update and its write. */
  predicate WriteInv(derive: Seed -> Address, s: Stores, at: Proc, record: Option<Lifecycle>)
    requires IsUpdate(at)
  {
    match at
    case ResumeClear(_) => record.None? && s.seeds == map[] && (s.lifecycle.Some? ==> s.lifecycle.value.Provisioning?)
    case ResumeSet(id, address) => Matches(record, id) && record.value.expected == Some(address)
    case ResumeCommit(id, address) => record == Some(Configured(id, address))
    case _ => Find(derive, s.lifecycle, at) == Write(record)
  }

  predicate ProcInv(derive: Seed -> Address, s: Stores, p: nat, proc: Proc) {
    var at := Position(proc);
    && (Pending(at).Some? ==> Pending(at).value !in s.seeds && LifecycleId(s) != Pending(at))
    && (Resumed(at).Some? ==> SettledStores(s))
    && AtInv(derive, s, p, at)
    && (proc.Writing? ==> IsUpdate(at) && WriteInv(derive, s, at, proc.record))
  }

  /** Two processes hold the same id only when both resume the same record. */
  predicate Compatible(a: Proc, b: Proc) {
    HeldBy(a).Apart(HeldBy(b))
  }

  ghost predicate Inv(derive: Seed -> Address, st: State) {
    && StoreInv(derive, st.stores)
    && (forall p :: p in st.procs ==> ProcInv(derive, st.stores, p, st.procs[p]))
    && (forall p, q :: p in st.procs && q in st.procs && p != q ==> Compatible(st.procs[p], st.procs[q]))
  }
}
