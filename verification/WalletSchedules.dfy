/**
 Concrete schedules of interleaved administrators: a creation that begins inside a clearing ends with two seeds, and a
 configured lifecycle can be reopened.
 */
module WalletSchedules {
  import opened Options
  import opened WalletStores
  import opened WalletMachine
  import opened WalletRuns

  // ----- the guard is needed

  /** The run leads from one state to another and is guarded. */
  predicate Leads(derive: Seed -> Address, st: State, events: seq<Event>, st': State) {
    RunAll(derive, st, events) == st' && Guarded(derive, st, events)
  }

  lemma Stay(derive: Seed -> Address, st: State)
    ensures Leads(derive, st, [], st)
  {
  }

  lemma OneMore(derive: Seed -> Address, st: State, events: seq<Event>, cur: State, e: Event)
    requires Leads(derive, st, events, cur) && !(Begins(cur, e) && Clearing(cur))
    ensures Leads(derive, st, events + [e], Apply(derive, cur, e))
  {
    assert (events + [e])[..|events|] == events;
  }

  lemma {:induction false} Further(derive: Seed -> Address, st: State, first: seq<Event>, cur: State, second: seq<Event>, last: State)
    requires Leads(derive, st, first, cur) && Leads(derive, cur, second, last)
    ensures Leads(derive, st, first + second, last)
    decreases |second|
  {
    hide Apply;
    if second == [] {
      assert first + second == first;
    } else {
      var n := |second| - 1;
      Further(derive, st, first, cur, second[..n], RunAll(derive, cur, second[..n]));
      OneMore(derive, st, first + second[..n], RunAll(derive, cur, second[..n]), second[n]);
      assert first + second[..n] + [second[n]] == first + second;
    }
  }

  /** One faultless access of a process among others. */
  lemma OneRun(
      derive: Seed -> Address, st: State, events: seq<Event>, s: Stores, others: map<nat, Proc>, p: nat, proc: Proc, r: Seed, c: Config)
    requires Leads(derive, st, events, State(s, others[p := proc])) && !proc.CreateBegin?
    requires Step(derive, s, others.Keys + {p}, p, proc, Choice(NoFault, r)) == c
    ensures Leads(derive, st, events + [Run(p, Choice(NoFault, r))], State(c.stores, others[p := c.proc]))
  {
    hide Step, Leads;
    var cur, e := State(s, others[p := proc]), Run(p, Choice(NoFault, r));
    OneMore(derive, st, events, cur, e);
    assert cur.procs.Keys == others.Keys + {p};
    assert cur.procs[p := c.proc] == others[p := c.proc];
  }

  /** A creation that has begun gets, undisturbed, to the point where it stores its seed. */
  lemma Prepares(derive: Seed -> Address, st: State, events: seq<Event>, s: Stores, others: map<nat, Proc>, p: nat, id: Id, seed: Seed)
    returns (more: seq<Event>)
    requires Leads(derive, st, events, State(s, others[p := CreateFill(id)])) && s == Stores(Some(Begun(id, p)), map[])
    ensures Leads(derive, st, more, State(Stores(Some(Provisioning(id, p, true, Some(derive(seed)))), map[]),
                                          others[p := CreatePut(id, seed)]))
  {
    hide Leads;
    var record := Some(Provisioning(id, p, true, Some(derive(seed))));
    var s' := Stores(record, map[]);
    var r := Run(p, Choice(NoFault, seed));
    OneRun(derive, st, events, s, others, p, CreateFill(id), seed, Config(s, CreateSet(id, seed)));
    OneRun(derive, st, events + [r], s, others, p, CreateSet(id, seed), seed, Config(s, Writing(CreateSet(id, seed), record)));
    OneRun(derive, st, events + [r] + [r], s, others, p, Writing(CreateSet(id, seed), record), seed, Config(s', CreateStore(id, seed)));
    OneRun(derive, st, events + [r] + [r] + [r], s', others, p, CreateStore(id, seed), seed, Config(s', CreatePut(id, seed)));
    more := events + [r] + [r] + [r] + [r];
  }

  /** A new creation on empty stores gets to its begin. */
  lemma GetsToBegin(derive: Seed -> Address, st: State, events: seq<Event>, procs: map<nat, Proc>, p: nat, id: Id)
    returns (more: seq<Event>)
    requires var cur := State(Stores(None, map[]), procs); Leads(derive, st, events, cur) && Idle(cur, p) && Fresh(cur, id)
    ensures Leads(derive, st, more, State(Stores(None, map[]), procs[p := CreateBegin(id)]))
  {
    hide Leads;
    var s, r := Stores(None, map[]), Run(p, Choice(NoFault, []));
    OneMore(derive, st, events, State(s, procs), SpawnCreate(p, id));
    more := events + [SpawnCreate(p, id)];
    OneRun(derive, st, more, s, procs, p, CreateRead(id), [], Config(s, CreateList(id)));
    OneRun(derive, st, more + [r], s, procs, p, CreateList(id), [], Config(s, CreateBegin(id)));
    more := more + [r] + [r];
  }

  /** A new creation on empty stores gets past its begin when nobody is clearing. */
  lemma BeginsAnew(derive: Seed -> Address, st: State, events: seq<Event>, procs: map<nat, Proc>, p: nat, id: Id)
    returns (more: seq<Event>)
    requires var cur := State(Stores(None, map[]), procs); Leads(derive, st, events, cur) && Idle(cur, p) && Fresh(cur, id)
    requires forall q :: q in procs ==> !IsClearing(procs[q])
    ensures Leads(derive, st, more, State(Stores(Some(Begun(id, p)), map[]), procs[p := CreateFill(id)]))
  {
    hide Leads;
    more := GetsToBegin(derive, st, events, procs, p, id);
    var cur, r := State(Stores(None, map[]), procs[p := CreateBegin(id)]), Run(p, Choice(NoFault, []));
    OneMore(derive, st, more, cur, r);
    assert cur.procs[p := CreateFill(id)] == procs[p := CreateFill(id)];
    more := more + [r];
  }

  /** All processes but two crash. */
  lemma {:induction false} CrashOthers(derive: Seed -> Address, st: State, p: nat, q: nat) returns (events: seq<Event>)
    requires p in st.procs && q in st.procs && p != q
    ensures Leads(derive, st, events, State(st.stores, map[p := st.procs[p], q := st.procs[q]]))
    decreases |st.procs|
  {
    if r :| r in st.procs && r != p && r != q {
      var rest := st.(procs := st.procs - {r});
      var more := CrashOthers(derive, rest, p, q);
      Stay(derive, st);
      OneMore(derive, st, [], st, Crash(r));
      Further(derive, st, [] + [Crash(r)], rest, more, State(st.stores, map[p := st.procs[p], q := st.procs[q]]));
      events := [] + [Crash(r)] + more;
    } else {
      events := [];
      assert st.procs == map[p := st.procs[p], q := st.procs[q]];
    }
  }

  /**
   A creation `p` has begun while `q` was clearing: `q` removes the record of `p`, its process starts another creation,
   and both creations store their seeds.
   */
  lemma LateRemovalDoublesSeed(derive: Seed -> Address, st: State, p: nat, q: nat, c: Id) returns (more: seq<Event>)
    requires p in st.procs && q in st.procs && st.procs[p] == CreateFill(c) && IsClearing(st.procs[q])
    requires st.procs[q].record.None? && st.stores == Stores(Some(Begun(c, p)), map[])
    ensures Guarded(derive, st, more) && |RunAll(derive, st, more).stores.seeds| == 2
  {
    hide Leads;
    var w, one := st.procs[q], [1 as bv8];
    var absent := Stores(None, map[]);
    more := CrashOthers(derive, st, p, q);
    assert map[p := CreateFill(c), q := w] == map[q := w][p := CreateFill(c)];
    more := Prepares(derive, st, more, st.stores, map[q := w], p, c, one);
    var others := map[p := CreatePut(c, one)];
    assert map[q := w][p := CreatePut(c, one)] == others[q := w];
    var held := Stores(Some(Provisioning(c, p, true, Some(derive(one)))), map[]);
    OneRun(derive, st, more, held, others, q, w, [], Config(absent, OnSuccess(w.at)));
    more := more + [Run(q, Choice(NoFault, []))];
    more := AnotherCreation(derive, st, more, p, c, one, q, OnSuccess(w.at));
  }

  /** With no lifecycle any more, another creation gets to the point where it stores its seed, and both do. */
  lemma AnotherCreation(derive: Seed -> Address, st: State, events: seq<Event>, p: nat, c: Id, one: Seed, q: nat, done: Proc)
    returns (more: seq<Event>)
    requires p != q && done.Finished?
    requires Leads(derive, st, events, State(Stores(None, map[]), map[p := CreatePut(c, one)][q := done]))
    ensures Guarded(derive, st, more) && |RunAll(derive, st, more).stores.seeds| == 2
  {
    hide Leads;
    var two, d, others := [2 as bv8], c + "+", map[p := CreatePut(c, one)];
    var idle := others[q := done];
    assert |d| == |c| + 1 && Fresh(State(Stores(None, map[]), idle), d);
    more := BeginsAnew(derive, st, events, idle, q, d);
    assert idle[q := CreateFill(d)] == others[q := CreateFill(d)];
    more := Prepares(derive, st, more, Stores(Some(Begun(d, q)), map[]), others, q, d, two);
    more := BothStore(derive, st, more, p, c, one, q, d, two);
  }

  lemma BothStore(derive: Seed -> Address, st: State, events: seq<Event>, p: nat, c: Id, one: Seed, q: nat, d: Id, two: Seed)
    returns (more: seq<Event>)
    requires p != q && c != d
    requires Leads(derive, st, events, State(Stores(Some(Provisioning(d, q, true, Some(derive(two)))), map[]),
                                             map[p := CreatePut(c, one)][q := CreatePut(d, two)]))
    ensures Guarded(derive, st, more) && |RunAll(derive, st, more).stores.seeds| == 2
  {
    var s := Stores(Some(Provisioning(d, q, true, Some(derive(two)))), map[]);
    var s1 := PutSeed(s, d, derive(two), two);
    var s2 := PutSeed(s1, c, derive(one), one);
    var r, t := Run(q, Choice(NoFault, [])), Run(p, Choice(NoFault, []));
    OneRun(derive, st, events, s, map[p := CreatePut(c, one)], q, CreatePut(d, two), [], Config(s1, CreateReadBack(d, two)));
    assert map[p := CreatePut(c, one)][q := CreateReadBack(d, two)] == map[q := CreateReadBack(d, two)][p := CreatePut(c, one)];
    OneRun(derive, st, events + [r], s1, map[q := CreateReadBack(d, two)], p, CreatePut(c, one), [], Config(s2, CreateReadBack(c, one)));
    more := events + [r] + [t];
    assert s2.seeds.Keys == {c, d};
    assert |s2.seeds| == |s2.seeds.Keys|;
  }

  lemma BeginInClearing(derive: Seed -> Address, st: State, p: nat, q: nat, r: Seed) returns (more: seq<Event>)
    requires Inv(derive, st) && p in st.procs && st.procs[p].CreateBegin? && st.stores.lifecycle.None?
    requires q in st.procs && IsClearing(st.procs[q])
    ensures var st' := Apply(derive, st, Run(p, Choice(NoFault, r)));
            Guarded(derive, st', more) && |RunAll(derive, st', more).stores.seeds| == 2
  {
    var st' := Apply(derive, st, Run(p, Choice(NoFault, r)));
    assert ProcInv(derive, st.stores, q, st.procs[q]) && ProcInv(derive, st.stores, p, st.procs[p]);
    hide Inv;
    more := LateRemovalDoublesSeed(derive, st', p, q, st.procs[p].id);
  }

  /**
   A creation may begin exactly when nobody is clearing: then every guarded continuation keeps one seed, and otherwise
   some guarded continuation stores two.
   */
  lemma BeginIsSafeIff(derive: Seed -> Address, st: State, p: nat, r: Seed)
    requires Inv(derive, st) && p in st.procs && st.procs[p].CreateBegin? && st.stores.lifecycle.None?
    ensures var st' := Apply(derive, st, Run(p, Choice(NoFault, r)));
            !Clearing(st) <==> forall more :: Guarded(derive, st', more) ==> |RunAll(derive, st', more).stores.seeds| <= 1
  {
    hide Inv, Apply, RunAll, Guarded;
    var e := Run(p, Choice(NoFault, r));
    var st' := Apply(derive, st, e);
    if Clearing(st) {
      var q :| q in st.procs && IsClearing(st.procs[q]);
      var more := BeginInClearing(derive, st, p, q, r);
    } else {
      EventKeepsInv(derive, st, e);
      forall more | Guarded(derive, st', more) ensures |RunAll(derive, st', more).stores.seeds| <= 1 {
        RunAllKeepsInv(derive, st', more);
        InvHasOneSeed(derive, RunAll(derive, st', more));
      }
    }
  }

  lemma InvHasOneSeed(derive: Seed -> Address, st: State)
    requires Inv(derive, st)
    ensures |st.stores.seeds| <= 1
  {
    AtMostOne(derive, st.stores);
  }

  // ----- the schedule, from empty stores

  lemma {:induction false} RunAllSum(derive: Seed -> Address, st: State, first: seq<Event>, second: seq<Event>)
    ensures RunAll(derive, st, first + second) == RunAll(derive, RunAll(derive, st, first), second)
    decreases |second|
  {
    hide Apply;
    if second == [] {
      assert first + second == first;
    } else {
      var n := |second| - 1;
      RunAllSum(derive, st, first, second[..n]);
      assert (first + second)[..|first| + n] == first + second[..n];
    }
  }

  /** A repair that finds an abandoned record and no seed gets, undisturbed, to the point where it removes the file. */
  lemma GetsToRemove(derive: Seed -> Address, st: State, events: seq<Event>, s: Stores, others: map<nat, Proc>, p: nat, a: Id)
    returns (more: seq<Event>)
    requires Leads(derive, st, events, State(s, others)) && p !in others && s.seeds == map[]
    requires Matches(s.lifecycle, a) && !IsActive(s.lifecycle.value, others.Keys + {p})
    ensures Leads(derive, st, more, State(s, others[p := Writing(ResumeClear(a), None)]))
  {
    hide Leads;
    var r := Run(p, Choice(NoFault, []));
    OneMore(derive, st, events, State(s, others), SpawnRepair(p));
    more := events + [SpawnRepair(p)];
    OneRun(derive, st, more, s, others, p, RepairRead, [], Config(s, RepairList(s.lifecycle)));
    OneRun(derive, st, more + [r], s, others, p, RepairList(s.lifecycle), [], Config(s, ResumeClear(a)));
    OneRun(derive, st, more + [r] + [r], s, others, p, ResumeClear(a), [], Config(s, Writing(ResumeClear(a), None)));
    more := more + [r] + [r] + [r];
  }

  /** A creation starts and crashes after its begin; two repairs pass their matching read. */
  lemma TwoClearings(derive: Seed -> Address, a: Id) returns (events: seq<Event>)
    ensures
      var w, record := Writing(ResumeClear(a), None), Some(Begun(a, 0));
      Leads(derive, EMPTY, events, State(Stores(record, map[]), map[1 := w][2 := w]))
  {
    hide Leads;
    var st := EMPTY;
    var s, w := Stores(Some(Begun(a, 0)), map[]), Writing(ResumeClear(a), None);
    Stay(derive, st);
    events := BeginsAnew(derive, st, [], map[], 0, a);
    var begun := State(s, map[][0 := CreateFill(a)]);
    OneMore(derive, st, events, begun, Crash(0));
    assert begun.procs - {0} == map[];
    events := GetsToRemove(derive, st, events + [Crash(0)], s, map[], 1, a);
    events := GetsToRemove(derive, st, events, s, map[][1 := w], 2, a);
  }

  const EMPTY := State(Stores(None, map[]), map[])

  /** One of the two repairs removes the record, and another creation is about to begin while the other still clears. */
  lemma CreationBehindClearing(derive: Seed -> Address, a: Id, c: Id) returns (events: seq<Event>)
    requires a != c
    ensures Leads(derive, EMPTY, events, State(Stores(None, map[]), map[2 := Writing(ResumeClear(a), None)][1 := CreateBegin(c)]))
  {
    hide Leads;
    var w, absent, r := Writing(ResumeClear(a), None), Stores(None, map[]), Run(1, Choice(NoFault, []));
    events := TwoClearings(derive, a);
    assert map[1 := w][2 := w] == map[2 := w][1 := w];
    OneRun(derive, EMPTY, events, Stores(Some(Begun(a, 0)), map[]), map[2 := w], 1, w, [], Config(absent, OnSuccess(w.at)));
    events := events + [r];
    var idle := map[2 := w][1 := OnSuccess(w.at)];
    events := GetsToBegin(derive, EMPTY, events, idle, 1, c);
    assert idle[1 := CreateBegin(c)] == map[2 := w][1 := CreateBegin(c)];
  }

  /**
   From empty stores: a creation crashes, two repairs find its record, one of them removes it, another creation begins,
   and the second repair removes the new record. Two seeds end up in custody.
   */
  lemma TwoSeedsAreReachable(derive: Seed -> Address) returns (events: seq<Event>)
    ensures |RunAll(derive, EMPTY, events).stores.seeds| == 2
  {
    events := CreationBehindClearing(derive, "a", "c");
    RunAllKeepsInv(derive, EMPTY, events);
    hide RunAll, Guarded, Inv;
    var cur := RunAll(derive, EMPTY, events);
    var more := BeginInClearing(derive, cur, 1, 2, []);
    RunAllSum(derive, EMPTY, events, [Run(1, Choice(NoFault, []))]);
    RunAllSum(derive, EMPTY, events + [Run(1, Choice(NoFault, []))], more);
    RunOnce(derive, cur, Run(1, Choice(NoFault, [])));
    events := events + [Run(1, Choice(NoFault, []))] + more;
  }

  // ----- a configured lifecycle reopened

  const SEED: Seed := []

  /** One orphaned seed, with the lifecycle given. */
  function Orphaned(derive: Seed -> Address, lifecycle: Option<Lifecycle>): Stores {
    Stores(lifecycle, map["a" := SeedRecord(derive(SEED), SEED)])
  }

  /** The record with the address of the seed set. */
  function SetRecord(derive: Seed -> Address): Option<Lifecycle> {
    Some(Provisioning("a", 0, true, Some(derive(SEED))))
  }

  /** A repair that finds an abandoned record with its seed gets, undisturbed, to the point where it writes the address. */
  lemma GetsToSet(derive: Seed -> Address, st: State, events: seq<Event>, others: map<nat, Proc>, p: nat) returns (more: seq<Event>)
    requires p !in others && p != 0 && 0 !in others
    requires Leads(derive, st, events, State(Orphaned(derive, Some(Begun("a", 0))), others))
    ensures Leads(derive, st, more, State(Orphaned(derive, Some(Begun("a", 0))),
                                          others[p := Writing(ResumeSet("a", derive(SEED)), SetRecord(derive))]))
  {
    hide Leads;
    var s, r, a, address := Orphaned(derive, Some(Begun("a", 0))), Run(p, Choice(NoFault, [])), "a", derive(SEED);
    OneMore(derive, st, events, State(s, others), SpawnRepair(p));
    more := events + [SpawnRepair(p)];
    assert s.seeds.Keys == {a};
    OneRun(derive, st, more, s, others, p, RepairRead, [], Config(s, RepairList(s.lifecycle)));
    OneRun(derive, st, more + [r], s, others, p, RepairList(s.lifecycle), [], Config(s, ResumeRead(a, None)));
    OneRun(derive, st, more + [r] + [r], s, others, p, ResumeRead(a, None), [], Config(s, ResumeSet(a, address)));
    OneRun(derive, st, more + [r] + [r] + [r], s, others, p, ResumeSet(a, address), [],
           Config(s, Writing(ResumeSet(a, address), SetRecord(derive))));
    more := more + [r] + [r] + [r] + [r];
  }

  /** A repair gets, undisturbed, to the point where it adopts the orphaned seed. */
  lemma GetsToAdopt(derive: Seed -> Address) returns (events: seq<Event>)
    ensures Leads(derive, State(Orphaned(derive, None), map[]), events,
                  State(Orphaned(derive, None), map[][0 := OrphanBegin("a", derive(SEED))]))
  {
    hide Leads;
    var s, r, a, none: map<nat, Proc> := Orphaned(derive, None), Run(0, Choice(NoFault, [])), "a", map[];
    var st := State(s, none);
    assert s.seeds.Keys == {a};
    Stay(derive, st);
    OneMore(derive, st, [], st, SpawnRepair(0));
    events := [] + [SpawnRepair(0)];
    OneRun(derive, st, events, s, none, 0, RepairRead, [], Config(s, RepairList(None)));
    OneRun(derive, st, events + [r], s, none, 0, RepairList(None), [], Config(s, OrphanRead(a)));
    OneRun(derive, st, events + [r] + [r], s, none, 0, OrphanRead(a), [], Config(s, OrphanBegin(a, derive(SEED))));
    events := events + [r] + [r] + [r];
  }

  /** It crashes right after its begin. */
  lemma AdoptionCrashes(derive: Seed -> Address) returns (events: seq<Event>)
    ensures Leads(derive, State(Orphaned(derive, None), map[]), events, State(Orphaned(derive, Some(Begun("a", 0))), map[]))
  {
    hide Leads;
    var none: map<nat, Proc>, address := map[], derive(SEED);
    var st, s' := State(Orphaned(derive, None), none), Orphaned(derive, Some(Begun("a", 0)));
    events := GetsToAdopt(derive);
    OneRun(derive, st, events, st.stores, none, 0, OrphanBegin("a", address), [], Config(s', OrphanSet("a", address)));
    events := events + [Run(0, Choice(NoFault, []))];
    OneMore(derive, st, events, State(s', none[0 := OrphanSet("a", address)]), Crash(0));
    assert none[0 := OrphanSet("a", address)] - {0} == none;
    events := events + [Crash(0)];
  }

  /** Two repairs of one abandoned record: the first has configured it, the second is still about to write the address. */
  lemma ConfiguredBeforeLateSet(derive: Seed -> Address) returns (events: seq<Event>)
    ensures Leads(derive, State(Orphaned(derive, None), map[]), events,
                  State(Orphaned(derive, Some(Configured("a", derive(SEED)))),
                        map[1 := Finished(Ok(Recovered))][2 := Writing(ResumeSet("a", derive(SEED)), SetRecord(derive))]))
  {
    hide Leads, Orphaned, SetRecord;
    var st, done := State(Orphaned(derive, None), map[]), Finished(Ok(Recovered));
    var w := Writing(ResumeSet("a", derive(SEED)), SetRecord(derive));
    events := AdoptionCrashes(derive);
    events := GetsToSet(derive, st, events, map[], 1);
    events := GetsToSet(derive, st, events, map[][1 := w], 2);
    assert map[1 := w][2 := w] == map[2 := w][1 := w];
    events := Configures(derive, st, events, map[2 := w]);
    assert map[2 := w][1 := done] == map[1 := done][2 := w];
  }

  /**
   A configured lifecycle can turn back into a provisioning record, by the late write of another repair. The run is
   guarded, so the seed is safe and one more repair configures it again.
   */
  lemma ConfiguredCanReopen(derive: Seed -> Address) returns (events: seq<Event>, late: Event)
    ensures
      var st := State(Orphaned(derive, None), map[]);
      && Guarded(derive, st, events + [late])
      && RunAll(derive, st, events).stores == Orphaned(derive, Some(Configured("a", derive(SEED))))
      && RunAll(derive, st, events + [late]).stores == Orphaned(derive, SetRecord(derive))
  {
    var st := State(Orphaned(derive, None), map[]);
    var w := Writing(ResumeSet("a", derive(SEED)), SetRecord(derive));
    events := ConfiguredBeforeLateSet(derive);
    late := Run(2, Choice(NoFault, []));
    OneRun(derive, st, events, Orphaned(derive, Some(Configured("a", derive(SEED)))), map[1 := Finished(Ok(Recovered))], 2, w, [],
           Config(Orphaned(derive, SetRecord(derive)), OnSuccess(w.at)));
  }

  lemma Configures(derive: Seed -> Address, st: State, events: seq<Event>, others: map<nat, Proc>) returns (more: seq<Event>)
    requires Leads(derive, st, events, State(Orphaned(derive, Some(Begun("a", 0))),
                                             others[1 := Writing(ResumeSet("a", derive(SEED)), SetRecord(derive))]))
    ensures Leads(derive, st, more, State(Orphaned(derive, Some(Configured("a", derive(SEED)))), others[1 := Finished(Ok(Recovered))]))
  {
    hide Leads;
    var address, r := derive(SEED), Run(1, Choice(NoFault, []));
    var setting, commit := Writing(ResumeSet("a", address), SetRecord(derive)), ResumeCommit("a", address);
    var s0, s1 := Orphaned(derive, Some(Begun("a", 0))), Orphaned(derive, SetRecord(derive));
    var s2 := Orphaned(derive, Some(Configured("a", address)));
    OneRun(derive, st, events, s0, others, 1, setting, [], Config(s1, commit));
    OneRun(derive, st, events + [r], s1, others, 1, commit, [], Config(s1, Writing(commit, s2.lifecycle)));
    OneRun(derive, st, events + [r] + [r], s1, others, 1, Writing(commit, s2.lifecycle), [], Config(s2, Finished(Ok(Recovered))));
    more := events + [r] + [r] + [r];
  }
}
