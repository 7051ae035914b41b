/** What one undisturbed repair achieves, from every point a run can reach, and where it can achieve nothing. */
module WalletRepair {
  import opened Options
  import opened WalletStores
  import opened WalletMachine
  import opened WalletRuns

  datatype Repaired = Repaired(stores: Stores, action: Action)

  /** What a repair is for: configured exactly when there is a seed, under that seed's id and address. */
  ghost function RepairSpec(s: Stores): Repaired {
    if s.seeds.Keys == {} then
      Repaired(s.(lifecycle := None), if s.lifecycle.None? then NoAction else ClearedIncomplete)
    else
      var id :| id in s.seeds;
      Repaired(s.(lifecycle := Some(Configured(id, s.seeds[id].address))),
               if s.lifecycle.Some? && s.lifecycle.value.Configured? then Verified else Recovered)
  }

  /** The first `n` accesses of a process that nothing disturbs. */
  function Undisturbed(derive: Seed -> Address, s: Stores, alive: set<nat>, p: nat, proc: Proc, n: nat): Config
    decreases n
  {
    if n == 0 then Config(s, proc)
    else
      var c := Step(derive, s, alive, p, proc, Choice(NoFault, []));
      Undisturbed(derive, c.stores, alive, p, c.proc, n - 1)
  }

  /** A repair makes at most eight accesses. */
  const ACCESSES: nat := 8

  ghost predicate Repairs(derive: Seed -> Address, s: Stores, alive: set<nat>, p: nat) {
    var r := RepairSpec(s);
    Undisturbed(derive, s, alive, p, RepairRead, ACCESSES) == Config(r.stores, Finished(Ok(r.action)))
  }

  /** One undisturbed access, when the next position is known. */
  lemma Advance(derive: Seed -> Address, s: Stores, alive: set<nat>, p: nat, proc: Proc, s': Stores, proc': Proc, n: nat)
    requires n > 0 && Step(derive, s, alive, p, proc, Choice(NoFault, [])) == Config(s', proc')
    ensures Undisturbed(derive, s, alive, p, proc, n) == Undisturbed(derive, s', alive, p, proc', n - 1)
  {
  }

  /** One undisturbed update: the read of the record and the write. */
  lemma Update(derive: Seed -> Address, s: Stores, alive: set<nat>, p: nat, at: Proc, record: Option<Lifecycle>, n: nat)
    requires n > 1 && IsUpdate(at) && Find(derive, s.lifecycle, at) == Write(record)
    ensures Undisturbed(derive, s, alive, p, at, n) == Undisturbed(derive, s.(lifecycle := record), alive, p, OnSuccess(at), n - 2)
  {
    hide Undisturbed, Find;
    Advance(derive, s, alive, p, at, s, Writing(at, record), n);
    Advance(derive, s, alive, p, Writing(at, record), s.(lifecycle := record), OnSuccess(at), n - 1);
  }

  lemma {:induction false} FinishedStays(derive: Seed -> Address, s: Stores, alive: set<nat>, p: nat, result: Result, n: nat)
    ensures Undisturbed(derive, s, alive, p, Finished(result), n) == Config(s, Finished(result))
  {
    if n > 0 {
      FinishedStays(derive, s, alive, p, result, n - 1);
    }
  }

  lemma RepairWithoutSeed(derive: Seed -> Address, s: Stores, alive: set<nat>, p: nat, n: nat)
    requires s.seeds.Keys == {} && n >= 3 && (s.lifecycle.Some? ==> s.lifecycle.value.Provisioning?)
    ensures var r := RepairSpec(s);
            Undisturbed(derive, s, alive, p, RepairList(s.lifecycle), n) == Config(r.stores, Finished(Ok(r.action)))
  {
    hide Undisturbed;
    if s.lifecycle.None? {
      Advance(derive, s, alive, p, RepairList(s.lifecycle), s, Finished(Ok(NoAction)), n);
      FinishedStays(derive, s, alive, p, Ok(NoAction), n - 1);
    } else {
      var id := s.lifecycle.value.id;
      Advance(derive, s, alive, p, RepairList(s.lifecycle), s, ResumeClear(id), n);
      Update(derive, s, alive, p, ResumeClear(id), None, n - 1);
      FinishedStays(derive, s.(lifecycle := None), alive, p, Ok(ClearedIncomplete), n - 3);
    }
  }

  lemma RepairOrphan(derive: Seed -> Address, s: Stores, alive: set<nat>, p: nat, id: Id)
    requires s.seeds.Keys == {id} && ValidSeed(derive, s.seeds[id]) && s.lifecycle.None?
    ensures Undisturbed(derive, s, alive, p, RepairList(None), ACCESSES - 1)
         == Config(s.(lifecycle := Some(Configured(id, s.seeds[id].address))), Finished(Ok(Recovered)))
  {
    hide Undisturbed;
    var address := s.seeds[id].address;
    var s1 := s.(lifecycle := Some(Begun(id, p)));
    var s2 := s.(lifecycle := Some(Provisioning(id, p, true, Some(address))));
    var s3 := s.(lifecycle := Some(Configured(id, address)));
    Advance(derive, s, alive, p, RepairList(None), s, OrphanRead(id), 7);
    Advance(derive, s, alive, p, OrphanRead(id), s, OrphanBegin(id, address), 6);
    Advance(derive, s, alive, p, OrphanBegin(id, address), s1, OrphanSet(id, address), 5);
    Update(derive, s1, alive, p, OrphanSet(id, address), s2.lifecycle, 4);
    Update(derive, s2, alive, p, OrphanCommit(id, address), s3.lifecycle, 2);
    FinishedStays(derive, s3, alive, p, Ok(Recovered), 0);
  }

  lemma RepairConfigured(derive: Seed -> Address, s: Stores, alive: set<nat>, p: nat, n: nat)
    requires n >= 2 && s.lifecycle.Some? && s.lifecycle.value.Configured? && s.seeds.Keys == {s.lifecycle.value.id}
    requires var r := s.seeds[s.lifecycle.value.id]; ValidSeed(derive, r) && r.address == s.lifecycle.value.address
    ensures Undisturbed(derive, s, alive, p, RepairList(s.lifecycle), n) == Config(s, Finished(Ok(Verified)))
  {
    hide Undisturbed;
    var id, address := s.lifecycle.value.id, s.lifecycle.value.address;
    assert s.seeds.Keys == {id};
    Advance(derive, s, alive, p, RepairList(s.lifecycle), s, VerifyRead(id, address), n);
    Advance(derive, s, alive, p, VerifyRead(id, address), s, Finished(Ok(Verified)), n - 1);
    FinishedStays(derive, s, alive, p, Ok(Verified), n - 2);
  }

  lemma RepairResumed(derive: Seed -> Address, s: Stores, alive: set<nat>, p: nat, id: Id, n: nat)
    requires s.seeds.Keys == {id} && ValidSeed(derive, s.seeds[id]) && n >= 6
    requires Matches(s.lifecycle, id)
    requires s.lifecycle.value.expected.Some? ==> s.lifecycle.value.expected.value == s.seeds[id].address
    ensures Undisturbed(derive, s, alive, p, RepairList(s.lifecycle), n)
         == Config(s.(lifecycle := Some(Configured(id, s.seeds[id].address))), Finished(Ok(Recovered)))
  {
    hide Undisturbed;
    var address, expected := s.seeds[id].address, s.lifecycle.value.expected;
    var s1 := s.(lifecycle := Some(s.lifecycle.value.(expected := Some(address))));
    var s2 := s.(lifecycle := Some(Configured(id, address)));
    Advance(derive, s, alive, p, RepairList(s.lifecycle), s, ResumeRead(id, expected), n);
    if expected.None? {
      Advance(derive, s, alive, p, ResumeRead(id, expected), s, ResumeSet(id, address), n - 1);
      Update(derive, s, alive, p, ResumeSet(id, address), s1.lifecycle, n - 2);
      Update(derive, s1, alive, p, ResumeCommit(id, address), s2.lifecycle, n - 4);
      FinishedStays(derive, s2, alive, p, Ok(Recovered), n - 6);
    } else {
      Advance(derive, s, alive, p, ResumeRead(id, expected), s, ResumeCommit(id, address), n - 1);
      Update(derive, s, alive, p, ResumeCommit(id, address), s2.lifecycle, n - 2);
      FinishedStays(derive, s2, alive, p, Ok(Recovered), n - 4);
    }
  }

  /** A repair that cannot tell which seed belongs to the lifecycle, or whose seed does not fit, gives up and changes nothing. */
  lemma RepairGivesUp(derive: Seed -> Address, s: Stores, alive: set<nat>, p: nat, n: nat)
    requires n >= 2
    requires s.seeds.Keys == {} ==> s.lifecycle.Some? && s.lifecycle.value.Configured?
    requires forall id :: s.seeds.Keys == {id} ==> !Fits(derive, s.lifecycle, id, s.seeds[id])
    ensures Undisturbed(derive, s, alive, p, RepairList(s.lifecycle), n) == Config(s, Stop(ManualRecoveryRequired))
  {
    hide Undisturbed;
    var next := AfterList(s.lifecycle, s.seeds.Keys);
    Advance(derive, s, alive, p, RepairList(s.lifecycle), s, next, n);
    if next.Finished? {
      assert next == Stop(ManualRecoveryRequired);
    } else {
      assert s.seeds.Keys == {next.id};
      Advance(derive, s, alive, p, next, s, Stop(ManualRecoveryRequired), n - 1);
    }
    FinishedStays(derive, s, alive, p, Err(ManualRecoveryRequired), if next.Finished? then n - 1 else n - 2);
  }

  /** The one seed in custody is valid, and the lifecycle, if there is one, is of its id and commits to no other address. */
  predicate Fits(derive: Seed -> Address, l: Option<Lifecycle>, id: Id, r: SeedRecord) {
    && derive(r.seed) == r.address
    && match l
       case None => true
       case Some(Configured(owner, address)) => owner == id && address == r.address
       case Some(Provisioning(owner, _, _, expected)) => owner == id && (expected == None || expected == Some(r.address))
  }

  /** The record is active and its owner alive. */
  predicate InUse(l: Option<Lifecycle>, alive: set<nat>) {
    match l
    case Some(Provisioning(_, owner, true, _)) => owner in alive
    case _ => false
  }

  datatype Outcome = Outcome(stores: Stores, result: Result)

  /** What a repair does to any stores, sound or not. */
  ghost function RepairOutcome(derive: Seed -> Address, s: Stores, alive: set<nat>): Outcome {
    if InUse(s.lifecycle, alive) then Outcome(s, Err(Busy))
    else if s.seeds == map[] then
      match s.lifecycle
      case None => Outcome(s, Ok(NoAction))
      case Some(Configured(_, _)) => Outcome(s, Err(ManualRecoveryRequired))
      case Some(Provisioning(_, _, _, _)) => Outcome(s.(lifecycle := None), Ok(ClearedIncomplete))
    else if id :| s.seeds.Keys == {id} && Fits(derive, s.lifecycle, id, s.seeds[id]) then
      Outcome(s.(lifecycle := Some(Configured(id, s.seeds[id].address))),
              Ok(if s.lifecycle.Some? && s.lifecycle.value.Configured? then Verified else Recovered))
    else Outcome(s, Err(ManualRecoveryRequired))
  }

  /** One undisturbed repair has that outcome within eight accesses, whatever the stores hold. */
  lemma RepairIsExact(derive: Seed -> Address, s: Stores, alive: set<nat>, p: nat)
    ensures var o := RepairOutcome(derive, s, alive);
            Undisturbed(derive, s, alive, p, RepairRead, ACCESSES) == Config(o.stores, Finished(o.result))
  {
    hide Undisturbed;
    assert s.seeds == map[] <==> s.seeds.Keys == {};
    if InUse(s.lifecycle, alive) {
      Advance(derive, s, alive, p, RepairRead, s, Stop(Busy), ACCESSES);
      FinishedStays(derive, s, alive, p, Err(Busy), ACCESSES - 1);
    } else {
      Advance(derive, s, alive, p, RepairRead, s, RepairList(s.lifecycle), ACCESSES);
      if s.seeds == map[] && (s.lifecycle.Some? ==> s.lifecycle.value.Provisioning?) {
        RepairWithoutSeed(derive, s, alive, p, ACCESSES - 1);
      } else if id :| id in s.seeds && s.seeds.Keys == {id} && Fits(derive, s.lifecycle, id, s.seeds[id]) {
        FittingSeed(derive, s, alive, p, id);
      } else {
        assert forall id :: s.seeds.Keys == {id} ==> id in s.seeds;
        RepairGivesUp(derive, s, alive, p, ACCESSES - 1);
      }
    }
  }

  lemma FittingSeed(derive: Seed -> Address, s: Stores, alive: set<nat>, p: nat, id: Id)
    requires s.seeds.Keys == {id} && Fits(derive, s.lifecycle, id, s.seeds[id]) && !InUse(s.lifecycle, alive)
    ensures var o := RepairOutcome(derive, s, alive);
            Undisturbed(derive, s, alive, p, RepairList(s.lifecycle), ACCESSES - 1) == Config(o.stores, Finished(o.result))
  {
    hide Undisturbed;
    assert id in s.seeds.Keys && forall i :: s.seeds.Keys == {i} ==> i == id;
    if s.lifecycle.None? {
      RepairOrphan(derive, s, alive, p, id);
    } else if s.lifecycle.value.Configured? {
      RepairConfigured(derive, s, alive, p, ACCESSES - 1);
      assert s.(lifecycle := Some(Configured(id, s.seeds[id].address))) == s;
    } else {
      RepairResumed(derive, s, alive, p, id, ACCESSES - 1);
    }
  }

  /** One undisturbed repair of inactive stores does what a repair is for. */
  lemma RepairMeetsSpec(derive: Seed -> Address, s: Stores, alive: set<nat>, p: nat)
    requires StoreInv(derive, s) && (s.lifecycle.Some? ==> !IsActive(s.lifecycle.value, alive))
    ensures Repairs(derive, s, alive, p)
  {
    hide Undisturbed;
    RepairIsExact(derive, s, alive, p);
    assert s.seeds == map[] <==> s.seeds.Keys == {};
    if id :| id in s.seeds {
      assert s.seeds.Keys == {id} && Fits(derive, s.lifecycle, id, s.seeds[id]);
      assert forall i :: s.seeds.Keys == {i} ==> i == id;
    }
  }

  /**
   From every point a guarded run can reach, whatever crashed or failed there, one undisturbed repair succeeds once the
   provisioning is inactive: it configures the seed in custody if there is one and clears the lifecycle if there is none.
   A second repair changes nothing and answers verified or none.
   */
  lemma RepairConverges(derive: Seed -> Address, st: State, events: seq<Event>, alive: set<nat>, p: nat, q: nat)
    requires Start(derive, st) && Guarded(derive, st, events)
    requires var l := RunAll(derive, st, events).stores.lifecycle; l.Some? ==> !IsActive(l.value, alive)
    ensures var s := RunAll(derive, st, events).stores;
            var r := RepairSpec(s);
            && Repairs(derive, s, alive, p)
            && Repairs(derive, r.stores, alive, q)
            && RepairSpec(r.stores) == Repaired(r.stores, if s.seeds == map[] then NoAction else Verified)
            && r.stores.seeds == s.seeds
  {
    RunAllKeepsInv(derive, st, events);
    var s := RunAll(derive, st, events).stores;
    assert StoreInv(derive, s);
    hide RunAll, Guarded, Inv;
    RepairTwiceMeetsSpec(derive, s, alive, p, q);
  }

  lemma RepairTwiceMeetsSpec(derive: Seed -> Address, s: Stores, alive: set<nat>, p: nat, q: nat)
    requires StoreInv(derive, s) && (s.lifecycle.Some? ==> !IsActive(s.lifecycle.value, alive))
    ensures var r := RepairSpec(s);
            && Repairs(derive, s, alive, p)
            && Repairs(derive, r.stores, alive, q)
            && RepairSpec(r.stores) == Repaired(r.stores, if s.seeds == map[] then NoAction else Verified)
            && r.stores.seeds == s.seeds && StoreInv(derive, r.stores)
  {
    hide Repairs;
    var r := RepairSpec(s);
    assert s.seeds == map[] <==> s.seeds.Keys == {};
    RepairMeetsSpec(derive, s, alive, p);
    if id :| id in s.seeds {
      assert s.seeds.Keys == {id};
    }
    RepairMeetsSpec(derive, r.stores, alive, q);
  }

  // ----- two seeds

  lemma {:induction false} SeedIdsStay(derive: Seed -> Address, st: State, events: seq<Event>)
    ensures st.stores.seeds.Keys <= RunAll(derive, st, events).stores.seeds.Keys
  {
    if events != [] {
      SeedIdsStay(derive, st, events[..|events| - 1]);
      hide Look, MatchStep;
    }
  }

  /** Once two seeds are in custody, no repair of inactive stores ever does anything but ask for manual recovery. */
  lemma TwoSeedsStay(derive: Seed -> Address, st: State, events: seq<Event>, alive: set<nat>, p: nat, n: nat)
    requires |st.stores.seeds| >= 2 && n >= 2
    requires var l := RunAll(derive, st, events).stores.lifecycle; l.Some? ==> !IsActive(l.value, alive)
    ensures var s := RunAll(derive, st, events).stores;
            Undisturbed(derive, s, alive, p, RepairRead, n) == Config(s, Stop(ManualRecoveryRequired))
  {
    SeedIdsStay(derive, st, events);
    var s := RunAll(derive, st, events).stores;
    hide Undisturbed, RunAll;
    assert |st.stores.seeds| == |st.stores.seeds.Keys|;
    forall id ensures s.seeds.Keys != {id} && s.seeds.Keys != {} {
      SubsetSize(st.stores.seeds.Keys, s.seeds.Keys);
    }
    Advance(derive, s, alive, p, RepairRead, s, RepairList(s.lifecycle), n);
    Advance(derive, s, alive, p, RepairList(s.lifecycle), s, Stop(ManualRecoveryRequired), n - 1);
    FinishedStays(derive, s, alive, p, Err(ManualRecoveryRequired), n - 2);
  }

  lemma {:induction false} SubsetSize<T>(a: set<T>, b: set<T>)
    requires a <= b
    ensures |a| <= |b|
  {
    if x :| x in a {
      SubsetSize(a - {x}, b - {x});
    }
  }
}
