/**
 The agent wallet administrator: `create` and `repair` over the two stores, each access to which may fail before or
 after its effect. Every run of either is a run of the step machine, so what holds of the machine holds of them.
 */
module WalletAdmin {
  import opened Options
  import opened WalletStores
  import opened WalletMachine
  import opened WalletRepair
  import opened WalletSteps

  const SEED_BYTES: nat := 32

  datatype Reply<T> = Value(value: T) | Threw(code: Code)

  // ----- following the machine

  /** Where a process stands after a sequence of choices, when no other process moves. */
  function Follow(derive: Seed -> Address, s: Stores, alive: set<nat>, p: nat, proc: Proc, choices: seq<Choice>): Config
    decreases |choices|
  {
    if choices == [] then Config(s, proc)
    else
      var c := Step(derive, s, alive, p, proc, choices[0]);
      Follow(derive, c.stores, alive, p, c.proc, choices[1..])
  }

  /** Following one sequence of choices and then another. */
  lemma {:induction false} Extend(
      derive: Seed -> Address, s: Stores, alive: set<nat>, p: nat, proc: Proc, choices: seq<Choice>, more: seq<Choice>)
    ensures var c := Follow(derive, s, alive, p, proc, choices);
            Follow(derive, s, alive, p, proc, choices + more) == Follow(derive, c.stores, alive, p, c.proc, more)
    decreases |choices|
  {
    hide Step;
    if choices == [] {
      assert choices + more == more;
    } else {
      var c := Step(derive, s, alive, p, proc, choices[0]);
      Extend(derive, c.stores, alive, p, c.proc, choices[1..], more);
      assert (choices + more)[1..] == choices[1..] + more;
    }
  }

  lemma FollowOne(derive: Seed -> Address, s: Stores, alive: set<nat>, p: nat, proc: Proc, ch: Choice)
    ensures Follow(derive, s, alive, p, proc, [ch]) == Step(derive, s, alive, p, proc, ch)
  {
    hide Step;
    var c := Step(derive, s, alive, p, proc, ch);
    assert Follow(derive, c.stores, alive, p, c.proc, []) == c;
  }

  lemma FollowTwo(derive: Seed -> Address, s: Stores, alive: set<nat>, p: nat, proc: Proc, ch: Choice, ch': Choice)
    ensures var c := Step(derive, s, alive, p, proc, ch);
            Follow(derive, s, alive, p, proc, [ch, ch']) == Step(derive, c.stores, alive, p, c.proc, ch')
  {
    hide Step;
    FollowOne(derive, s, alive, p, proc, ch);
    var c := Step(derive, s, alive, p, proc, ch);
    FollowOne(derive, c.stores, alive, p, c.proc, ch');
    Extend(derive, s, alive, p, proc, [ch], [ch']);
  }

  /** Following a process keeps the store invariant and every seed. */
  lemma {:induction false} FollowKeepsStores(derive: Seed -> Address, s: Stores, alive: set<nat>, p: nat, proc: Proc, choices: seq<Choice>)
    requires StoreInv(derive, s) && ProcInv(derive, s, p, proc)
    ensures StoreInv(derive, Follow(derive, s, alive, p, proc, choices).stores)
    ensures SeedsKept(s, Follow(derive, s, alive, p, proc, choices).stores)
    decreases |choices|
  {
    hide Step, StoreInv, ProcInv;
    if choices != [] {
      var c := Step(derive, s, alive, p, proc, choices[0]);
      StepKeepsStores(derive, s, alive, p, proc, choices[0]);
      StepKeepsSelf(derive, s, alive, p, proc, choices[0]);
      FollowKeepsStores(derive, c.stores, alive, p, c.proc, choices[1..]);
    }
  }

  predicate Quiet(choices: seq<Choice>) {
    forall k :: 0 <= k < |choices| ==> choices[k] == Choice(NoFault, [])
  }

  lemma {:induction false} QuietFollow(derive: Seed -> Address, s: Stores, alive: set<nat>, p: nat, proc: Proc, choices: seq<Choice>)
    requires Quiet(choices)
    ensures Follow(derive, s, alive, p, proc, choices) == Undisturbed(derive, s, alive, p, proc, |choices|)
    decreases |choices|
  {
    hide Step;
    if choices != [] {
      var c := Step(derive, s, alive, p, proc, choices[0]);
      QuietFollow(derive, c.stores, alive, p, c.proc, choices[1..]);
    }
  }

  lemma {:induction false} UndisturbedSum(derive: Seed -> Address, s: Stores, alive: set<nat>, p: nat, proc: Proc, m: nat, n: nat)
    ensures var c := Undisturbed(derive, s, alive, p, proc, m);
            Undisturbed(derive, s, alive, p, proc, m + n) == Undisturbed(derive, c.stores, alive, p, c.proc, n)
    decreases m
  {
    hide Step;
    if m > 0 {
      var c := Step(derive, s, alive, p, proc, Choice(NoFault, []));
      UndisturbedSum(derive, c.stores, alive, p, c.proc, m - 1, n);
    }
  }

  /** A process that has finished undisturbed has the one outcome that any number of further operations confirms. */
  lemma OutcomeIsUnique(derive: Seed -> Address, s: Stores, alive: set<nat>, p: nat, proc: Proc, m: nat, a: Result, n: nat, b: Result)
    requires Undisturbed(derive, s, alive, p, proc, m).proc == Finished(a)
    requires Undisturbed(derive, s, alive, p, proc, n).proc == Finished(b)
    ensures Undisturbed(derive, s, alive, p, proc, m) == Undisturbed(derive, s, alive, p, proc, n)
  {
    hide Undisturbed;
    var c, d := Undisturbed(derive, s, alive, p, proc, m), Undisturbed(derive, s, alive, p, proc, n);
    UndisturbedSum(derive, s, alive, p, proc, m, n);
    UndisturbedSum(derive, s, alive, p, proc, n, m);
    FinishedStays(derive, c.stores, alive, p, a, n);
    FinishedStays(derive, d.stores, alive, p, b, m);
    assert m + n == n + m;
  }

  /** A faultless run of repair has the outcome specified, whatever the stores hold and however many accesses it took. */
  lemma QuietRepair(derive: Seed -> Address, s: Stores, alive: set<nat>, p: nat, choices: seq<Choice>, after: Stores, r: Result)
    requires Quiet(choices) && Follow(derive, s, alive, p, RepairRead, choices) == Config(after, Finished(r))
    ensures Outcome(after, r) == RepairOutcome(derive, s, alive)
  {
    hide Undisturbed, Follow, RepairOutcome;
    RepairIsExact(derive, s, alive, p);
    QuietFollow(derive, s, alive, p, RepairRead, choices);
    OutcomeIsUnique(derive, s, alive, p, RepairRead, |choices|, r, ACCESSES, RepairOutcome(derive, s, alive).result);
  }

  // ----- the stores

  /** Where a process stands once its provisioning record is in place. */
  function AfterBegin(at: Proc): Proc
    requires at.CreateBegin? || at.OrphanBegin?
  {
    if at.CreateBegin? then CreateFill(at.id) else OrphanSet(at.id, at.address)
  }

  /**
   The lifecycle file and the seed custody as one process sees them. On a reliable host nothing fails; on one whose file
   works, the seed custody and the random source may.
   */
  class Host {
    var stores: Stores
    const derive: Seed -> Address
    const pid: nat
    const alive: set<nat>
    const fileWorks: bool
    const restWorks: bool
    const reliable := fileWorks && restWorks

    constructor (stores: Stores, derive: Seed -> Address, pid: nat, alive: set<nat>, fileWorks: bool, restWorks: bool)
      ensures this.stores == stores && this.derive == derive && this.pid == pid && this.alive == alive
      ensures this.fileWorks == fileWorks && this.restWorks == restWorks
    {
      this.stores, this.derive, this.pid, this.alive := stores, derive, pid, alive;
      this.fileWorks, this.restWorks := fileWorks, restWorks;
    }

    method ChooseFault(works: bool) returns (fault: Fault)
      ensures works ==> fault.NoFault?
    {
      fault := *;
      if works {
        fault := NoFault;
      }
    }

    method ReadLifecycle() returns (r: Reply<Option<Lifecycle>>, ghost fault: Fault)
      ensures r == if fault.NoFault? then Value(stores.lifecycle) else Threw(Unavailable)
      ensures fileWorks ==> fault.NoFault?
    {
      var f := ChooseFault(fileWorks);
      r, fault := if f.NoFault? then Value(stores.lifecycle) else Threw(Unavailable), f;
    }

    method ListSeedIds() returns (r: Reply<set<Id>>, ghost fault: Fault)
      ensures r == if fault.NoFault? then Value(stores.seeds.Keys) else Threw(CredentialStoreUnavailable)
      ensures restWorks ==> fault.NoFault?
    {
      var f := ChooseFault(restWorks);
      r, fault := if f.NoFault? then Value(stores.seeds.Keys) else Threw(CredentialStoreUnavailable), f;
    }

    method ReadSeed(id: Id) returns (r: Reply<Option<SeedRecord>>, ghost fault: Fault)
      ensures r == if !fault.NoFault? then Threw(CredentialStoreUnavailable)
                   else Value(if id in stores.seeds then Some(stores.seeds[id]) else None)
      ensures restWorks ==> fault.NoFault?
    {
      var f := ChooseFault(restWorks);
      fault := f;
      if !f.NoFault? {
        return Threw(CredentialStoreUnavailable), f;
      }
      r := Value(if id in stores.seeds then Some(stores.seeds[id]) else None);
    }

    /** The lifecycle file is created exclusively; a loser reads it to say why. */
    method CreateProvisioning(ghost at: Proc, id: Id) returns (error: Option<Code>, ghost choices: seq<Choice>)
      requires at == CreateBegin(id) || (at.OrphanBegin? && at.id == id)
      modifies this
      ensures Follow(derive, old(stores), alive, pid, at, choices)
           == Config(stores, if error.Some? then Stop(error.value) else AfterBegin(at))
      ensures fileWorks ==> Quiet(choices)
      ensures fileWorks && old(stores.lifecycle).None? ==> error.None? && stores == old(stores).(lifecycle := Some(Begun(id, pid)))
      ensures fileWorks && old(stores.lifecycle).Some? ==> error.Some? && stores == old(stores)
    {
      var f := ChooseFault(fileWorks);
      FollowOne(derive, stores, alive, pid, at, Choice(f, []));
      choices := [Choice(f, [])];
      if !f.FailBefore? && stores.lifecycle.None? {
        stores := stores.(lifecycle := Some(Begun(id, pid)));
        return if f.NoFault? then None else Some(Unavailable), choices;
      }
      if !f.NoFault? {
        return Some(Unavailable), choices;
      }
      var existing, g := ReadLifecycle();
      FollowTwo(derive, stores, alive, pid, at, Choice(f, []), Choice(g, []));
      choices := [Choice(f, []), Choice(g, [])];
      error := Some(if existing.Threw? then existing.code
                    else if existing.value.Some? && existing.value.value.Configured? then AlreadyConfigured
                    else if existing.value.Some? && IsActive(existing.value.value, alive) then Busy else RepairRequired);
    }

    /** An update reads the record it has to match and later writes, without looking again. */
    method Update(at: Proc) returns (error: Option<Code>, ghost choices: seq<Choice>)
      requires IsUpdate(at)
      modifies this
      ensures Follow(derive, old(stores), alive, pid, at, choices)
           == Config(stores, if error.Some? then OnError(at, error.value) else OnSuccess(at))
      ensures fileWorks ==> Quiet(choices)
      ensures fileWorks ==>
        match Find(derive, old(stores.lifecycle), at)
        case Refused(code) => error == Some(code) && stores == old(stores)
        case Done => error.None? && stores == old(stores)
        case Write(record) => error.None? && stores == old(stores).(lifecycle := record)
    {
      hide Follow, Find, OnError, OnSuccess, Look;
      var current, f := ReadLifecycle();
      FollowOne(derive, stores, alive, pid, at, Choice(f, []));
      choices := [Choice(f, [])];
      if current.Threw? {
        return Some(current.code), choices;
      }
      match Find(derive, current.value, at) {
        case Refused(code) => return Some(code), choices;
        case Done => return None, choices;
        case Write(record) =>
          var g := ChooseFault(fileWorks);
          FollowTwo(derive, stores, alive, pid, at, Choice(f, []), Choice(g, []));
          choices := [Choice(f, []), Choice(g, [])];
          if !g.FailBefore? {
            stores := stores.(lifecycle := record);
          }
          error := if g.NoFault? then None else Some(Unavailable);
      }
    }

    /** A seed is stored under its id after a look that there is none, and read back. */
    method CreateSeed(id: Id, seed: Seed) returns (error: Option<Code>, ghost choices: seq<Choice>)
      modifies this
      ensures Follow(derive, old(stores), alive, pid, CreateStore(id, seed), choices)
           == Config(stores, if error.Some? then Abandon(id, error.value) else CreateCheck(id, seed))
      ensures stores.lifecycle == old(stores.lifecycle)
      ensures restWorks && id !in old(stores).seeds ==> error.None? && stores == PutSeed(old(stores), id, derive(seed), seed)
    {
      var existing, f := ReadSeed(id);
      FollowOne(derive, stores, alive, pid, CreateStore(id, seed), Choice(f, []));
      choices := [Choice(f, [])];
      if existing.Threw? || existing.value.Some? {
        return Some(if existing.Threw? then existing.code else RepairRequired), choices;
      }
      var g := ChooseFault(restWorks);
      FollowTwo(derive, stores, alive, pid, CreateStore(id, seed), Choice(f, []), Choice(g, []));
      choices := [Choice(f, []), Choice(g, [])];
      if !g.FailBefore? {
        stores := PutSeed(stores, id, derive(seed), seed);
      }
      if !g.NoFault? {
        return Some(CredentialStoreUnavailable), choices;
      }
      ghost var more;
      error, more := ReadBack(id, seed);
      Extend(derive, old(stores), alive, pid, CreateStore(id, seed), choices, more);
      choices := choices + more;
    }

    /** What was stored is read back and compared. */
    method ReadBack(id: Id, seed: Seed) returns (error: Option<Code>, ghost choices: seq<Choice>)
      ensures Follow(derive, stores, alive, pid, CreateReadBack(id, seed), choices)
           == Config(stores, if error.Some? then Abandon(id, error.value) else CreateCheck(id, seed))
      ensures restWorks && id in stores.seeds && stores.seeds[id] == SeedRecord(derive(seed), seed) ==> error.None?
    {
      var stored, f := ReadSeed(id);
      FollowOne(derive, stores, alive, pid, CreateReadBack(id, seed), Choice(f, []));
      choices := [Choice(f, [])];
      if stored.Threw? {
        return Some(stored.code), choices;
      }
      error := if stored.value == Some(SeedRecord(derive(seed), seed)) then None else Some(ManualRecoveryRequired);
    }

    method FillRandom(buffer: array<bv8>) returns (ok: bool, ghost fault: Fault)
      modifies buffer
      ensures ok == fault.NoFault?
      ensures restWorks ==> fault.NoFault?
    {
      var f := ChooseFault(restWorks);
      fault := f;
      for i := 0 to buffer.Length {
        buffer[i] := *;
      }
      ok := f.NoFault?;
    }
  }

  /** Overwrites a seed in memory. */
  method Wipe(buffer: array<bv8>)
    modifies buffer
    ensures forall k :: 0 <= k < buffer.Length ==> buffer[k] == 0
  {
    for i := 0 to buffer.Length
      invariant forall k :: 0 <= k < i ==> buffer[k] == 0
    {
      buffer[i] := 0;
    }
  }

  /** Configured under `id`, with that seed alone in custody and its derived address committed. */
  predicate IsCreated(derive: Seed -> Address, s: Stores, id: Id) {
    && s.seeds.Keys == {id}
    && s.lifecycle == Some(Configured(id, derive(s.seeds[id].seed)))
    && s.seeds[id].address == derive(s.seeds[id].seed)
  }

  /** The record of an interrupted creation, with no other address than that of its seed. */
  predicate ReadyToCommit(l: Option<Lifecycle>, id: Id, address: Address, expected: Option<Address>) {
    Matches(l, id) && l.value.expected == expected && (expected.Some? ==> expected.value == address)
  }

  /** Why a creation on stores that are not empty is refused. */
  function Refusal(l: Option<Lifecycle>, alive: set<nat>): Code {
    match l
    case Some(Configured(_, _)) => AlreadyConfigured
    case Some(Provisioning(_, owner, true, _)) => if owner in alive then Busy else RepairRequired
    case _ => RepairRequired
  }

  /** The record that a failed creation leaves: its own, and not active. */
  predicate LeftBehind(s: Stores, id: Id, p: nat) {
    Matches(s.lifecycle, id) && s.lifecycle.value.owner == p && !s.lifecycle.value.active
  }

  class SteleWalletAdmin {
    const host: Host

    constructor (host: Host)
      ensures this.host == host
    {
      this.host := host;
    }

    /** From `from`, the choices lead to the present stores and to `proc`. */
    ghost predicate Ran(start: Stores, from: Proc, choices: seq<Choice>, proc: Proc)
      reads host
    {
      Follow(host.derive, start, host.alive, host.pid, from, choices) == Config(host.stores, proc)
    }

    /** One more access that leaves the stores alone. */
    lemma Looked(start: Stores, from: Proc, choices: seq<Choice>, proc: Proc, ch: Choice, next: Proc)
      requires Ran(start, from, choices, proc)
      requires Step(host.derive, host.stores, host.alive, host.pid, proc, ch) == Config(host.stores, next)
      ensures Ran(start, from, choices + [ch], next)
      ensures Quiet(choices) && ch == Choice(NoFault, []) ==> Quiet(choices + [ch])
    {
      Extend(host.derive, start, host.alive, host.pid, from, choices, [ch]);
      FollowOne(host.derive, host.stores, host.alive, host.pid, proc, ch);
    }

    /** More accesses, which may have changed the stores. */
    lemma Did(start: Stores, from: Proc, choices: seq<Choice>, before: Stores, at: Proc, more: seq<Choice>, next: Proc)
      requires Follow(host.derive, start, host.alive, host.pid, from, choices) == Config(before, at)
      requires Follow(host.derive, before, host.alive, host.pid, at, more) == Config(host.stores, next)
      ensures Ran(start, from, choices + more, next)
      ensures Quiet(choices) && Quiet(more) ==> Quiet(choices + more)
    {
      Extend(host.derive, start, host.alive, host.pid, from, choices, more);
    }

    /** One update of the lifecycle file, by the host. */
    method Update(at: Proc, ghost start: Stores, ghost from: Proc, ghost past: seq<Choice>)
      returns (error: Option<Code>, ghost choices: seq<Choice>)
      requires IsUpdate(at) && Ran(start, from, past, at)
      modifies host
      ensures Ran(start, from, choices, if error.Some? then OnError(at, error.value) else OnSuccess(at))
      ensures host.fileWorks && Quiet(past) ==> Quiet(choices)
      ensures host.fileWorks ==>
        match Find(host.derive, old(host.stores.lifecycle), at)
        case Refused(code) => error == Some(code) && host.stores == old(host.stores)
        case Done => error.None? && host.stores == old(host.stores)
        case Write(record) => error.None? && host.stores == old(host.stores).(lifecycle := record)
    {
      hide Find, OnError, OnSuccess, Quiet, Follow;
      ghost var before, more := host.stores, [];
      error, more := host.Update(at);
      Did(start, from, past, before, at, more, if error.Some? then OnError(at, error.value) else OnSuccess(at));
      choices := past + more;
    }

    // ----- create

    /** The seed buffer, if one was allocated, is all zeros on every return. */
    method Create(id: Id) returns (r: Result, ghost choices: seq<Choice>, ghost buffer: array?<bv8>)
      modifies host
      ensures Ran(old(host.stores), CreateRead(id), choices, Finished(r))
      ensures host.reliable && old(host.stores) == Stores(None, map[]) ==> r == Ok(Created) && IsCreated(host.derive, host.stores, id)
      ensures host.reliable && old(host.stores) != Stores(None, map[]) ==>
        host.stores == old(host.stores) && r == Err(Refusal(old(host.stores.lifecycle), host.alive))
      ensures host.fileWorks && r.Err? ==>
        host.stores.lifecycle == old(host.stores.lifecycle) || (old(host.stores.lifecycle).None? && LeftBehind(host.stores, id, host.pid))
      ensures buffer != null ==> fresh(buffer) && buffer.Length == 32 && forall k :: 0 <= k < 32 ==> buffer[k] == 0
    {
      ghost var start, from := host.stores, CreateRead(id);
      choices, buffer := [], null;
      var lifecycle, fault := host.ReadLifecycle();
      ghost var ch := Choice(fault, []);
      if lifecycle.Threw? {
        Looked(start, from, choices, from, ch, Finished(Err(lifecycle.code)));
        return Err(lifecycle.code), choices + [ch], null;
      }
      if lifecycle.value.Some? {
        r := Err(if lifecycle.value.value.Configured? then AlreadyConfigured
                 else if IsActive(lifecycle.value.value, host.alive) then Busy else RepairRequired);
        Looked(start, from, choices, from, ch, Finished(r));
        return r, choices + [ch], null;
      }
      Looked(start, from, choices, from, ch, CreateList(id));
      choices := choices + [ch];
      var ids;
      ids, fault := host.ListSeedIds();
      ch := Choice(fault, []);
      if ids.Threw? || ids.value != {} {
        r := Err(if ids.Threw? then ids.code else RepairRequired);
        Looked(start, from, choices, CreateList(id), ch, Finished(r));
        return r, choices + [ch], null;
      }
      Looked(start, from, choices, CreateList(id), ch, CreateBegin(id));
      choices := choices + [ch];
      ghost var before, more := host.stores, [];
      var error;
      error, more := host.CreateProvisioning(CreateBegin(id), id);
      if error.Some? {
        Did(start, from, choices, before, CreateBegin(id), more, Finished(Err(error.value)));
        return Err(error.value), choices + more, null;
      }
      Did(start, from, choices, before, CreateBegin(id), more, CreateFill(id));
      var seed := new bv8[SEED_BYTES];
      r, choices := Provision(id, seed, start, choices + more);
      Wipe(seed);
      buffer := seed;
    }

    /** From the provisioning record to the configured one; a failure on the way abandons the record. */
    method Provision(id: Id, buffer: array<bv8>, ghost start: Stores, ghost past: seq<Choice>)
      returns (r: Result, ghost choices: seq<Choice>)
      requires Ran(start, CreateRead(id), past, CreateFill(id))
      modifies host, buffer
      ensures Ran(start, CreateRead(id), choices, Finished(r))
      ensures host.reliable && old(Own(host.stores, host.pid, id, None) && host.stores.seeds == map[])
              ==> r == Ok(Created) && IsCreated(host.derive, host.stores, id)
      ensures host.fileWorks && r.Err? && old(Own(host.stores, host.pid, id, None)) ==> LeftBehind(host.stores, id, host.pid)
    {
      ghost var from := CreateRead(id);
      choices := past;
      var ok, fault := host.FillRandom(buffer);
      var seed := buffer[..];
      ghost var ch := Choice(fault, seed);
      if !ok {
        Looked(start, from, choices, CreateFill(id), ch, WalletMachine.Abandon(id, Unavailable));
        r, choices := Abandon(id, Unavailable, start, from, choices + [ch]);
        return;
      }
      Looked(start, from, choices, CreateFill(id), ch, CreateSet(id, seed));
      r, choices := StoreSeed(id, seed, start, choices + [ch]);
    }

    method StoreSeed(id: Id, seed: Seed, ghost start: Stores, ghost past: seq<Choice>)
      returns (r: Result, ghost choices: seq<Choice>)
      requires Ran(start, CreateRead(id), past, CreateSet(id, seed))
      modifies host
      ensures Ran(start, CreateRead(id), choices, Finished(r))
      ensures host.reliable && old(Own(host.stores, host.pid, id, None) && host.stores.seeds == map[])
              ==> r == Ok(Created) && IsCreated(host.derive, host.stores, id)
      ensures host.fileWorks && r.Err? && old(Own(host.stores, host.pid, id, None)) ==> LeftBehind(host.stores, id, host.pid)
    {
      ghost var from := CreateRead(id);
      choices := past;
      var error;
      error, choices := Update(CreateSet(id, seed), start, from, choices);
      if error.Some? {
        r, choices := Abandon(id, error.value, start, from, choices);
        return;
      }
      ghost var before, more := host.stores, [];
      error, more := host.CreateSeed(id, seed);
      if error.Some? {
        Did(start, from, choices, before, CreateStore(id, seed), more, WalletMachine.Abandon(id, error.value));
        r, choices := Abandon(id, error.value, start, from, choices + more);
        return;
      }
      Did(start, from, choices, before, CreateStore(id, seed), more, CreateCheck(id, seed));
      r, choices := CheckAndCommit(id, seed, start, choices + more);
    }

    method CheckAndCommit(id: Id, seed: Seed, ghost start: Stores, ghost past: seq<Choice>)
      returns (r: Result, ghost choices: seq<Choice>)
      requires Ran(start, CreateRead(id), past, CreateCheck(id, seed))
      modifies host
      ensures Ran(start, CreateRead(id), choices, Finished(r))
      ensures host.reliable && old(host.stores) == Stores(Some(Provisioning(id, host.pid, true, Some(host.derive(seed)))),
                                                          map[id := SeedRecord(host.derive(seed), seed)])
              ==> r == Ok(Created) && IsCreated(host.derive, host.stores, id)
      ensures host.fileWorks && r.Err? && old(Own(host.stores, host.pid, id, Some(host.derive(seed))))
              ==> LeftBehind(host.stores, id, host.pid)
    {
      ghost var from := CreateRead(id);
      choices := past;
      var ids, fault := host.ListSeedIds();
      ghost var ch := Choice(fault, []);
      if ids.Threw? || ids.value != {id} {
        var code := if ids.Threw? then ids.code else ManualRecoveryRequired;
        Looked(start, from, choices, CreateCheck(id, seed), ch, WalletMachine.Abandon(id, code));
        r, choices := Abandon(id, code, start, from, choices + [ch]);
        return;
      }
      Looked(start, from, choices, CreateCheck(id, seed), ch, CreateCommit(id, seed));
      var error;
      error, choices := Update(CreateCommit(id, seed), start, from, choices + [ch]);
      if error.Some? {
        r, choices := Abandon(id, error.value, start, from, choices);
        return;
      }
      r := Ok(Created);
    }

    /** The record is marked inactive; whether that works or not, the original error is reported. */
    method Abandon(id: Id, code: Code, ghost start: Stores, ghost from: Proc, ghost past: seq<Choice>)
      returns (r: Result, ghost choices: seq<Choice>)
      requires Ran(start, from, past, WalletMachine.Abandon(id, code))
      modifies host
      ensures r == Err(code) && Ran(start, from, choices, Finished(r))
      ensures host.fileWorks && Matches(old(host.stores.lifecycle), id) ==>
        host.stores == old(host.stores).(lifecycle := Some(old(host.stores.lifecycle).value.(active := false)))
      ensures host.fileWorks && Quiet(past) ==> Quiet(choices)
    {
      hide Quiet, Follow;
      var error;
      error, choices := Update(WalletMachine.Abandon(id, code), start, from, past);
      r := Err(code);
    }

    // ----- repair

    method Repair() returns (r: Result, ghost choices: seq<Choice>)
      modifies host
      ensures Ran(old(host.stores), RepairRead, choices, Finished(r))
      ensures host.reliable ==> Quiet(choices)
      ensures host.fileWorks && r.Err? ==> host.stores == old(host.stores)
    {
      ghost var start := host.stores;
      choices := [];
      var lifecycle, fault := host.ReadLifecycle();
      ghost var ch := Choice(fault, []);
      if lifecycle.Threw? || (lifecycle.value.Some? && IsActive(lifecycle.value.value, host.alive)) {
        r := Err(if lifecycle.Threw? then lifecycle.code else Busy);
        Looked(start, RepairRead, choices, RepairRead, ch, Finished(r));
        return r, choices + [ch];
      }
      var seen := lifecycle.value;
      Looked(start, RepairRead, choices, RepairRead, ch, RepairList(seen));
      choices := choices + [ch];
      var ids;
      ids, fault := host.ListSeedIds();
      ch := Choice(fault, []);
      if ids.Threw? {
        Looked(start, RepairRead, choices, RepairList(seen), ch, Finished(Err(ids.code)));
        return Err(ids.code), choices + [ch];
      }
      Looked(start, RepairRead, choices, RepairList(seen), ch, AfterList(seen, ids.value));
      choices := choices + [ch];
      match seen
      case None => r, choices := RepairWithoutLifecycle(ids.value, start, choices);
      case Some(Configured(id, address)) => r, choices := VerifyConfigured(id, address, ids.value, start, choices);
      case Some(Provisioning(id, _, _, expected)) => r, choices := RepairProvisioning(seen.value, ids.value, start, choices);
    }

    method RepairWithoutLifecycle(ids: set<Id>, ghost start: Stores, ghost past: seq<Choice>)
      returns (r: Result, ghost choices: seq<Choice>)
      requires Ran(start, RepairRead, past, AfterList(None, ids))
      modifies host
      ensures Ran(start, RepairRead, choices, Finished(r))
      ensures host.reliable && Quiet(past) ==> Quiet(choices)
      ensures host.fileWorks && r.Err? && old(host.stores.lifecycle).None? ==> host.stores == old(host.stores)
    {
      hide Quiet, Follow;
      if |ids| == 0 {
        return Ok(NoAction), past;
      }
      var id :| id in ids;
      if |ids| != 1 {
        assert ids != {id};
        return Err(ManualRecoveryRequired), past;
      }
      assert ids == {id} by { Singleton(ids, id); }
      choices := past;
      var record, fault := host.ReadSeed(id);
      ghost var ch := Choice(fault, []);
      if record.Threw? || record.value.None? || !ValidSeed(host.derive, record.value.value) {
        r := Err(if record.Threw? then record.code else ManualRecoveryRequired);
        Looked(start, RepairRead, choices, OrphanRead(id), ch, Finished(r));
        return r, choices + [ch];
      }
      var address := record.value.value.address;
      Looked(start, RepairRead, choices, OrphanRead(id), ch, OrphanBegin(id, address));
      r, choices := AdoptOrphan(id, address, start, choices + [ch]);
    }

    method AdoptOrphan(id: Id, address: Address, ghost start: Stores, ghost past: seq<Choice>)
      returns (r: Result, ghost choices: seq<Choice>)
      requires Ran(start, RepairRead, past, OrphanBegin(id, address))
      modifies host
      ensures Ran(start, RepairRead, choices, Finished(r))
      ensures host.reliable && Quiet(past) ==> Quiet(choices)
      ensures host.fileWorks && r.Err? && old(host.stores.lifecycle).None? ==> host.stores == old(host.stores)
    {
      hide Quiet, Follow;
      ghost var before, more := host.stores, [];
      var error;
      error, more := host.CreateProvisioning(OrphanBegin(id, address), id);
      Did(start, RepairRead, past, before, OrphanBegin(id, address), more,
          if error.Some? then Stop(error.value) else OrphanSet(id, address));
      choices := past + more;
      if error.Some? {
        return Err(error.value), choices;
      }
      error, choices := Update(OrphanSet(id, address), start, RepairRead, choices);
      if error.Some? {
        r, choices := Abandon(id, error.value, start, RepairRead, choices);
        return;
      }
      error, choices := Update(OrphanCommit(id, address), start, RepairRead, choices);
      if error.Some? {
        r, choices := Abandon(id, error.value, start, RepairRead, choices);
        return;
      }
      r := Ok(Recovered);
    }

    method VerifyConfigured(id: Id, address: Address, ids: set<Id>, ghost start: Stores, ghost past: seq<Choice>)
      returns (r: Result, ghost choices: seq<Choice>)
      requires Ran(start, RepairRead, past, AfterList(Some(Configured(id, address)), ids))
      ensures Ran(start, RepairRead, choices, Finished(r))
      ensures host.reliable && Quiet(past) ==> Quiet(choices)
    {
      hide Quiet, Follow;
      if ids != {id} {
        return Err(ManualRecoveryRequired), past;
      }
      var record, fault := host.ReadSeed(id);
      ghost var ch := Choice(fault, []);
      r := if record.Threw? then Err(record.code)
           else if record.value.None? || !ValidSeed(host.derive, record.value.value) || record.value.value.address != address
           then Err(ManualRecoveryRequired) else Ok(Verified);
      Looked(start, RepairRead, past, VerifyRead(id, address), ch, Finished(r));
      choices := past + [ch];
    }

    method RepairProvisioning(seen: Lifecycle, ids: set<Id>, ghost start: Stores, ghost past: seq<Choice>)
      returns (r: Result, ghost choices: seq<Choice>)
      requires seen.Provisioning? && Ran(start, RepairRead, past, AfterList(Some(seen), ids))
      modifies host
      ensures Ran(start, RepairRead, choices, Finished(r))
      ensures host.reliable && Quiet(past) ==> Quiet(choices)
      ensures host.fileWorks && r.Err? && old(host.stores.lifecycle) == Some(seen) ==> host.stores == old(host.stores)
    {
      hide Quiet, Follow;
      var id, expected := seen.id, seen.expected;
      choices := past;
      if ids == {} {
        var error;
        error, choices := Update(ResumeClear(id), start, RepairRead, choices);
        return if error.Some? then Err(error.value) else Ok(ClearedIncomplete), choices;
      }
      if ids != {id} {
        return Err(ManualRecoveryRequired), past;
      }
      var record, fault := host.ReadSeed(id);
      ghost var ch := Choice(fault, []);
      if record.Threw? || record.value.None? || !ValidSeed(host.derive, record.value.value)
        || (expected.Some? && expected.value != record.value.value.address)
      {
        r := Err(if record.Threw? then record.code else ManualRecoveryRequired);
        Looked(start, RepairRead, choices, ResumeRead(id, expected), ch, Finished(r));
        return r, choices + [ch];
      }
      var address := record.value.value.address;
      Looked(start, RepairRead, choices, ResumeRead(id, expected), ch,
             if expected.None? then ResumeSet(id, address) else ResumeCommit(id, address));
      r, choices := Resume(id, address, expected, start, choices + [ch]);
    }

    method Resume(id: Id, address: Address, expected: Option<Address>, ghost start: Stores, ghost past: seq<Choice>)
      returns (r: Result, ghost choices: seq<Choice>)
      requires Ran(start, RepairRead, past, if expected.None? then ResumeSet(id, address) else ResumeCommit(id, address))
      modifies host
      ensures Ran(start, RepairRead, choices, Finished(r))
      ensures host.reliable && Quiet(past) ==> Quiet(choices)
      ensures host.fileWorks && r.Err? && ReadyToCommit(old(host.stores.lifecycle), id, address, expected)
              ==> host.stores == old(host.stores)
    {
      hide Quiet, Follow;
      choices := past;
      var error;
      if expected.None? {
        error, choices := Update(ResumeSet(id, address), start, RepairRead, choices);
        if error.Some? {
          return Err(error.value), choices;
        }
      }
      error, choices := Update(ResumeCommit(id, address), start, RepairRead, choices);
      r := if error.Some? then Err(error.value) else Ok(Recovered);
    }
  }

  lemma Singleton(ids: set<Id>, id: Id)
    requires id in ids && |ids| == 1
    ensures ids == {id}
  {
    assert |ids - {id}| == 0;
  }

  /**
   On a reliable host two repairs have the outcomes specified, one after the other. On sound inactive stores the first does
   what a repair is for, and the second only confirms it.
   */
  method RepairTwice(admin: SteleWalletAdmin) returns (first: Result, second: Result, ghost between: Stores)
    requires admin.host.reliable
    modifies admin.host
    ensures Outcome(between, first) == RepairOutcome(admin.host.derive, old(admin.host.stores), admin.host.alive)
    ensures Outcome(admin.host.stores, second) == RepairOutcome(admin.host.derive, between, admin.host.alive)
    ensures old(StoreInv(admin.host.derive, admin.host.stores) && !InUse(admin.host.stores.lifecycle, admin.host.alive)) ==>
      && first == Ok(RepairSpec(old(admin.host.stores)).action)
      && admin.host.stores == RepairSpec(old(admin.host.stores)).stores
      && second == Ok(if admin.host.stores.seeds == map[] then NoAction else Verified)
  {
    hide RepairOutcome, StoreInv, InUse, Follow;
    var host := admin.host;
    ghost var s0 := host.stores;
    ghost var choices;
    first, choices := admin.Repair();
    QuietRepair(host.derive, s0, host.alive, host.pid, choices, host.stores, first);
    between := host.stores;
    second, choices := admin.Repair();
    QuietRepair(host.derive, between, host.alive, host.pid, choices, host.stores, second);
    if StoreInv(host.derive, s0) && !InUse(s0.lifecycle, host.alive) {
      SecondRepairConfirms(host.derive, s0, host.alive);
    }
  }

  lemma SecondRepairConfirms(derive: Seed -> Address, s: Stores, alive: set<nat>)
    requires StoreInv(derive, s) && !InUse(s.lifecycle, alive)
    ensures var r := RepairSpec(s);
            && RepairOutcome(derive, s, alive) == Outcome(r.stores, Ok(r.action))
            && RepairOutcome(derive, r.stores, alive) == Outcome(r.stores, Ok(if s.seeds == map[] then NoAction else Verified))
            && r.stores.seeds == s.seeds
  {
    hide Undisturbed, RepairOutcome, StoreInv;
    var r := RepairSpec(s);
    RepairTwiceMeetsSpec(derive, s, alive, 0, 0);
    RepairIsExact(derive, s, alive, 0);
    RepairIsExact(derive, r.stores, alive, 0);
  }
}
